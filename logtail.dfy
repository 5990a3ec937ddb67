/**
 * get_last_n_lines of unarchive.py: reading the last lines of the log file by walking
 * a pointer from the end of the file back to its start, one character at a time.
 */
module LogTail {

  /** The elements of `s` in the opposite order. */
  function Reverse<T>(s: seq<T>): (r: seq<T>)
    ensures |r| == |s|
    ensures forall i :: 0 <= i < |s| ==> r[i] == s[|s| - 1 - i]
  {
    if s == [] then [] else Reverse(s[1..]) + [s[0]]
  }

  lemma {:induction false} ReverseSnoc<T>(s: seq<T>, x: T)
    ensures Reverse(s + [x]) == [x] + Reverse(s)
  {
    assert |Reverse(s + [x])| == |[x] + Reverse(s)|;
  }

  lemma {:induction false} ReverseReverse<T>(s: seq<T>)
    ensures Reverse(Reverse(s)) == s
  {
    assert |Reverse(Reverse(s))| == |s|;
  }

  /** The newline-separated segments of `s`, in file order. */
  function Split(s: string): (r: seq<string>)
    ensures r != []
  {
    if s == [] then [[]] else Prepend(s[0], Split(s[1..]))
  }

  /** The segments of `c` followed by a text whose segments are `t`. */
  function Prepend(c: char, t: seq<string>): (r: seq<string>)
    requires t != []
    ensures r != []
  {
    if c == '\n' then [[]] + t else [[c] + t[0]] + t[1..]
  }

  /** Segments added after the last one of `t` stay after it. */
  lemma {:induction false} PrependAppend(c: char, t: seq<string>, u: seq<string>)
    requires t != []
    ensures Prepend(c, t + u) == Prepend(c, t) + u
  {
    if c != '\n' {
      assert (t + u)[1..] == t[1..] + u;
    }
  }

  /** The number of newlines in `s`. */
  function Newlines(s: string): nat {
    if s == [] then 0 else (if s[0] == '\n' then 1 else 0) + Newlines(s[1..])
  }

  /** There is one more segment than there are newlines. */
  lemma {:induction false} SplitCount(s: string)
    ensures |Split(s)| == Newlines(s) + 1
  {
    if s != [] {
      SplitCount(s[1..]);
    }
  }

  /** No segment holds a newline. */
  lemma {:induction false} SplitNoNewline(s: string)
    ensures forall i :: 0 <= i < |Split(s)| ==> '\n' !in Split(s)[i]
  {
    if s != [] {
      SplitNoNewline(s[1..]);
    }
  }

  /** Joining the segments back with newlines gives the text again. */
  function Join(segments: seq<string>): string
    requires segments != []
  {
    if |segments| == 1 then segments[0] else segments[0] + "\n" + Join(segments[1..])
  }

  lemma {:induction false} JoinSplit(s: string)
    ensures Join(Split(s)) == s
  {
    if s != [] {
      JoinSplit(s[1..]);
      var t := Split(s[1..]);
      if s[0] == '\n' {
        assert Split(s)[1..] == t;
      } else if |t| == 1 {
        assert Join(Split(s)) == [s[0]] + t[0];
      } else {
        assert Split(s)[1..] == t[1..];
        assert Join(Split(s)) == [s[0]] + t[0] + "\n" + Join(t[1..]);
      }
      assert s == [s[0]] + s[1..];
    }
  }

  /** A newline between `a` and the rest of `b` ends the last segment of `a`. */
  lemma {:induction false} SplitAtNewline(a: string, b: string)
    requires b != [] && b[0] == '\n'
    ensures Split(a + b) == Split(a) + Split(b)[1..]
  {
    if a == [] {
      assert a + b == b;
    } else {
      assert (a + b)[1..] == a[1..] + b;
      SplitAtNewline(a[1..], b);
      PrependAppend(a[0], Split(a[1..]), Split(b)[1..]);
    }
  }

  /** A file that ends with a newline has an empty last segment. */
  lemma {:induction false} EndsWithNewline(file: string)
    requires file != [] && file[|file| - 1] == '\n'
    ensures Split(file)[|Split(file)| - 1] == []
    ensures |Split(file)| >= 2
  {
    var a := file[..|file| - 1];
    assert file == a + "\n";
    SplitAtNewline(a, "\n");
    assert Split("\n") == [[], []];
  }

  /**
   * What get_last_n_lines returns: when the file has at least `n >= 1` newlines, the last
   * `n` segments in file order (the early return); otherwise every segment, newest first,
   * leaving out an empty first segment (the fall-through return, which does not reverse).
   */
  function LastLines(file: string, n: int): seq<string> {
    var segments := Split(file);
    if 1 <= n <= |segments| - 1 then segments[|segments| - n..]
    else if segments[0] != [] then Reverse(segments)
    else Reverse(segments[1..])
  }

  /** The part of the file the scan has read once its pointer is at `pointer`. */
  ghost function Scanned(file: string, pointer: int): string
    requires -1 <= pointer <= |file|
  {
    if pointer == |file| then [] else file[pointer + 1..]
  }

  /**
   * The backward scan of get_last_n_lines. `pointer` starts at the end of the file, where
   * the first read returns nothing; every other read returns the character under it.
   */
  method GetLastNLines(file: string, n: int) returns (result: seq<string>)
    ensures result == LastLines(file, n)
  {
    var lines: seq<string> := [];
    var buffer: string := [];
    var pointer := |file|;
    while pointer >= 0
      invariant -1 <= pointer <= |file|
      invariant Reverse(buffer) == Split(Scanned(file, pointer))[0]
      invariant lines == Reverse(Split(Scanned(file, pointer))[1..])
      invariant 1 <= n ==> |lines| < n
      decreases pointer + 1
    {
      var at := pointer;
      pointer := pointer - 1;
      var newByte := file[at..if at < |file| then at + 1 else at];
      if newByte == "\n" {
        NewlineStep(file, at, buffer, lines);
        lines := lines + [Reverse(buffer)];
        if |lines| == n {
          EarlyReturn(file, at, lines);
          result := Reverse(lines);
          return;
        }
        buffer := [];
      } else if at < |file| {
        CharacterStep(file, at, buffer, lines);
        buffer := buffer + newByte;
      } else {
        buffer := buffer + newByte;
      }
    }
    assert Scanned(file, pointer) == file;
    FallThrough(file, n, buffer, lines);
    if |buffer| > 0 {
      lines := lines + [Reverse(buffer)];
    }
    result := lines;
  }

  /** At the start of the file, the lines collected and the segment in the buffer are what the fall-through return gives. */
  lemma {:induction false} FallThrough(file: string, n: int, buffer: string, lines: seq<string>)
    requires Reverse(buffer) == Split(file)[0]
    requires lines == Reverse(Split(file)[1..])
    requires 1 <= n ==> |lines| < n
    ensures (if |buffer| > 0 then lines + [Reverse(buffer)] else lines) == LastLines(file, n)
  {
    var segments := Split(file);
    assert segments == [segments[0]] + segments[1..];
    if |buffer| > 0 {
      ReverseSnoc(segments[1..], segments[0]);
      ReverseReverse(lines);
    }
  }

  /** Reading a newline ends the segment in the buffer, which joins the collected lines. */
  lemma {:induction false} NewlineStep(file: string, at: nat, buffer: string, lines: seq<string>)
    requires at < |file| && file[at] == '\n'
    requires Reverse(buffer) == Split(file[at + 1..])[0]
    requires lines == Reverse(Split(file[at + 1..])[1..])
    ensures [] == Split(file[at..])[0]
    ensures lines + [Reverse(buffer)] == Reverse(Split(file[at..])[1..])
  {
    var t := Split(file[at + 1..]);
    assert file[at..][1..] == file[at + 1..];
    assert Split(file[at..]) == [[]] + t;
    assert t == [t[0]] + t[1..];
  }

  /** Reading another character puts it in front of the segment in the buffer. */
  lemma {:induction false} CharacterStep(file: string, at: nat, buffer: string, lines: seq<string>)
    requires at < |file| && file[at] != '\n'
    requires Reverse(buffer) == Split(file[at + 1..])[0]
    requires lines == Reverse(Split(file[at + 1..])[1..])
    ensures Reverse(buffer + [file[at]]) == Split(file[at..])[0]
    ensures lines == Reverse(Split(file[at..])[1..])
  {
    var t := Split(file[at + 1..]);
    assert file[at..][1..] == file[at + 1..];
    assert Split(file[at..]) == [[file[at]] + t[0]] + t[1..];
    ReverseSnoc(buffer, file[at]);
  }

  /** Lines collected up to a newline are, reversed, the last segments of the whole file. */
  lemma {:induction false} EarlyReturn(file: string, at: nat, lines: seq<string>)
    requires at < |file| && file[at] == '\n'
    requires lines == Reverse(Split(file[at..])[1..])
    requires lines != []
    ensures Reverse(lines) == LastLines(file, |lines|)
  {
    SplitAtNewline(file[..at], file[at..]);
    assert file[..at] + file[at..] == file;
    ReverseReverse(Split(file[at..])[1..]);
  }

  /** With `n >= 1`, at most `n` lines come back, and no line holds a newline. */
  lemma {:induction false} LastLinesBounded(file: string, n: int)
    ensures 1 <= n ==> |LastLines(file, n)| <= n
    ensures forall i :: 0 <= i < |LastLines(file, n)| ==> '\n' !in LastLines(file, n)[i]
  {
    var segments := Split(file);
    SplitCount(file);
    SplitNoNewline(file);
    if !(1 <= n <= |segments| - 1) && segments[0] == [] {
      var r := Reverse(segments[1..]);
      forall i | 0 <= i < |r| ensures '\n' !in r[i] {
        assert r[i] == segments[|segments| - 1 - i];
      }
    }
  }

  /**
   * When the file has at least `n` newlines, the lines come back in file order, and they are
   * the last `n` segments: joined with newlines they are exactly the file after its
   * `n`-th newline from the end.
   */
  lemma {:induction false} LastLinesInFileOrder(file: string, n: int)
    requires 1 <= n <= Newlines(file)
    ensures |LastLines(file, n)| == n
    ensures exists k :: 0 <= k < |file| && file[k] == '\n' && Join(LastLines(file, n)) == file[k + 1..]
  {
    SplitCount(file);
    var k := NewlineBefore(file, n);
    JoinSplit(file[k + 1..]);
  }

  /** With at least `n >= 1` newlines, the lines are the last `n` segments of the file. */
  lemma {:induction false} LastLinesLong(file: string, n: int)
    requires 1 <= n <= Newlines(file)
    ensures n < |Split(file)| && LastLines(file, n) == Split(file)[|Split(file)| - n..]
  {
    SplitCount(file);
  }

  /** The position of the `n`-th newline from the end, with the segments after it. */
  lemma {:induction false} NewlineBefore(file: string, n: int) returns (k: nat)
    requires 1 <= n <= Newlines(file)
    ensures k < |file| && file[k] == '\n'
    ensures n < |Split(file)| && Split(file[k + 1..]) == Split(file)[|Split(file)| - n..]
  {
    var rest := file[1..];
    SplitCount(rest);
    if n <= Newlines(rest) {
      var k' := NewlineBefore(rest, n);
      k := k' + 1;
      assert file[k + 1..] == rest[k' + 1..];
      PrependSuffix(file[0], Split(rest), n);
    } else {
      k := 0;
      assert file[0] == '\n';
      assert file[1..] == rest;
    }
  }

  /** The last `n` segments are kept when a character is put in front, as long as `n` of them are left whole. */
  lemma {:induction false} PrependSuffix(c: char, t: seq<string>, n: nat)
    requires n < |t|
    ensures var r := Prepend(c, t); n < |r| && r[|r| - n..] == t[|t| - n..]
  {
  }

  /**
   * A log with fewer than `n` newlines, and with text before its first newline, comes back
   * newest first: the first line returned is the last segment of the file.
   */
  lemma {:induction false} ShortLogNewestFirst(file: string, n: int)
    requires Newlines(file) < n
    requires file != [] && file[0] != '\n'
    ensures LastLines(file, n) == Reverse(Split(file))
    ensures LastLines(file, n)[0] == Split(file)[|Split(file)| - 1]
  {
    SplitCount(file);
    assert Split(file)[0] == [file[0]] + Split(file[1..])[0];
  }

  /**
   * A file ending with a newline yields an empty line: the first one collected, which is
   * the last of the early return and the first of the fall-through return.
   */
  lemma {:induction false} TrailingNewlineGivesEmptyLine(file: string, n: int)
    requires file != [] && file[|file| - 1] == '\n'
    ensures var r := LastLines(file, n);
      r != [] &&
      (if 1 <= n <= Newlines(file) then r[|r| - 1] == [] else r[0] == [])
  {
    SplitCount(file);
    EndsWithNewline(file);
    var segments := Split(file);
    if 1 <= n <= Newlines(file) {
      LastLinesLong(file, n);
      SuffixEndsEmpty(segments, n);
    } else {
      assert LastLines(file, n) == if segments[0] != [] then Reverse(segments) else Reverse(segments[1..]);
      NewestFirstEmpty(segments);
    }
  }

  lemma {:induction false} SuffixEndsEmpty(segments: seq<string>, n: nat)
    requires 1 <= n <= |segments| && segments[|segments| - 1] == []
    ensures var r := segments[|segments| - n..]; r != [] && r[|r| - 1] == []
  {
  }

  lemma {:induction false} NewestFirstEmpty(segments: seq<string>)
    requires |segments| >= 2 && segments[|segments| - 1] == []
    ensures var r := if segments[0] != [] then Reverse(segments) else Reverse(segments[1..]); r != [] && r[0] == []
  {
    if segments[0] == [] {
      assert segments[1..][|segments| - 2] == [];
    }
  }
}

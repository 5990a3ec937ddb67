/**
 * The progress log read back: what LOG_RE_PATTERN finds in the lines restore_object
 * writes through the line format "%(asctime)s - %(levelname)s - %(message)s".
 */
module RoundTrip {
  import opened Wrappers
  import opened Text
  import opened LogFormat
  import opened Restore
  import opened LogPattern

  /** A logging time stamp at the start of a line matches the pattern's time-stamp part. */
  lemma {:induction false} AsctimeIsStamp(line: string, a: string)
    requires AsctimeShape(a) && |line| >= 23 && line[..23] == a
    ensures StampAt(line, 0)
  {
    forall k: nat | k < 23 ensures StampCharAt(line, 0, k) {
      assert line[k] == a[k];
    }
  }

  /** LineEnd stops at the end of a line with no newline from `i` on. */
  lemma {:induction false} LineEndAtEnd(line: string, i: nat)
    requires i <= |line|
    requires forall m :: i <= m < |line| ==> line[m] != '\n'
    ensures LineEnd(line, i) == |line|
  {
  }

  /** DigitsEnd stops at the first character after `i` that is not a digit. */
  lemma {:induction false} DigitsEndAt(line: string, i: nat, d: nat)
    requires i <= d < |line| && !IsDigit(line[d])
    requires forall m :: i <= m < d ==> IsDigit(line[m])
    ensures DigitsEnd(line, i) == d
  {
  }

  /** The index tag can only match at an opening parenthesis. */
  lemma {:induction false} IndexAtParenthesis(line: string, j: nat)
    requires IndexAt(line, j)
    ensures j < |line| && line[j] == '('
  {
    assert line[j..j + 7][0] == line[j];
  }

  /** The greedy scan settles on `j` when the tag matches there and nowhere after it. */
  lemma {:induction false} LastIndexAt(line: string, lo: nat, hi: nat, j: nat)
    requires lo <= j <= hi && IndexAt(line, j)
    requires forall m :: j < m <= hi ==> !IndexAt(line, m)
    ensures LastIndex(line, lo, hi) == Some(j)
  {
    LastIndexIsLast(line, lo, hi);
  }

  /** What "' (index=<digits>)<text>" at `q` puts at each position after the quote. */
  lemma {:induction false} QuoteTail(line: string, q: nat, digits: string, text: string)
    requires q <= |line| && line[q..] == "' (index=" + digits + ")" + text
    requires AllDigits(digits) && PlainText(text)
    ensures |line| == q + 10 + |digits| + |text|
    ensures line[q] == '\'' && line[q + 2..q + 9] == IndexTag && line[q + 9..q + 9 + |digits|] == digits
    ensures forall m :: q + 9 <= m < q + 9 + |digits| ==> IsDigit(line[m])
    ensures line[q + 9 + |digits|] == ')'
    ensures forall m :: q + 1 <= m < |line| ==> line[m] != '\n'
    ensures forall m :: q + 2 < m < |line| ==> line[m] != '('
  {
    QuoteTailLayout(line, q, digits, text);
    QuoteTailCharacters(line, q, digits, text);
  }

  lemma {:induction false} QuoteTailLayout(line: string, q: nat, digits: string, text: string)
    requires q <= |line| && line[q..] == "' (index=" + digits + ")" + text
    ensures |line| == q + 10 + |digits| + |text|
    ensures line[q] == '\'' && line[q + 2..q + 9] == IndexTag && line[q + 9..q + 9 + |digits|] == digits
    ensures forall i :: 0 <= i < |digits| ==> line[q + 9 + i] == digits[i]
    ensures line[q + 9 + |digits|] == ')'
    ensures forall i :: 0 <= i < |text| ==> line[q + 10 + |digits| + i] == text[i]
  {
    var u := line[q..];
    assert forall m :: q <= m < |line| ==> line[m] == u[m - q];
    assert forall i :: 0 <= i < |digits| ==> u[9 + i] == digits[i];
    assert forall i :: 0 <= i < |text| ==> u[10 + |digits| + i] == text[i];
  }

  lemma {:induction false} QuoteTailCharacters(line: string, q: nat, digits: string, text: string)
    requires |line| == q + 10 + |digits| + |text|
    requires line[q + 1] == ' ' && line[q + 2..q + 9] == IndexTag
    requires forall i :: 0 <= i < |digits| ==> line[q + 9 + i] == digits[i]
    requires line[q + 9 + |digits|] == ')'
    requires forall i :: 0 <= i < |text| ==> line[q + 10 + |digits| + i] == text[i]
    requires AllDigits(digits) && PlainText(text)
    ensures forall m :: q + 9 <= m < q + 9 + |digits| ==> IsDigit(line[m])
    ensures forall m :: q + 1 <= m < |line| ==> line[m] != '\n'
    ensures forall m :: q + 2 < m < |line| ==> line[m] != '('
  {
    var close := q + 9 + |digits|;
    forall m | q + 9 <= m < close ensures IsDigit(line[m]) {
      assert line[m] == digits[m - q - 9];
    }
    forall m | q + 1 <= m < |line| ensures line[m] != '\n' && (q + 2 < m ==> line[m] != '(') {
      if m > close {
        assert line[m] == text[m - close - 1];
      } else if q + 9 <= m < close {
        assert line[m] == digits[m - q - 9];
      } else if q + 2 <= m < q + 9 {
        assert line[m] == line[q + 2..q + 9][m - q - 2];
      }
    }
  }

  /** No index tag starts after `i` when no opening parenthesis does. */
  lemma {:induction false} NoIndexAfter(line: string, i: nat)
    requires forall m :: i < m < |line| ==> line[m] != '('
    ensures forall m :: i < m <= |line| ==> !IndexAt(line, m)
  {
    forall m | i < m <= |line| ensures !IndexAt(line, m) {
      if IndexAt(line, m) {
        IndexAtParenthesis(line, m);
      }
    }
  }

  /** The index tag right after the quote, with the value of its digits. */
  lemma {:induction false} IndexAfterQuote(line: string, q: nat, digits: string)
    requires q + 10 + |digits| <= |line| && |digits| >= 1
    requires line[q + 2..q + 9] == IndexTag && line[q + 9..q + 9 + |digits|] == digits
    requires forall m :: q + 9 <= m < q + 9 + |digits| ==> IsDigit(line[m])
    requires line[q + 9 + |digits|] == ')'
    ensures IndexAt(line, q + 2) && IndexValue(line, q + 2) == Value(digits)
  {
    DigitsEndAt(line, q + 9, q + 9 + |digits|);
  }

  /**
   * After the quote that closes the key, a message of restore_object reads
   * "' (index=<digits>)<text>": the index tag there is the last one when the text holds no
   * parenthesis, and the captured index is the value of the digits.
   */
  lemma {:induction false} TagAfterQuote(line: string, q: nat, digits: string, text: string)
    requires q <= |line| && line[q..] == "' (index=" + digits + ")" + text
    requires |digits| >= 1 && AllDigits(digits) && PlainText(text)
    ensures q < |line| && TagAfter(line, q) == Some(q + 2)
    ensures IndexAt(line, q + 2) && IndexValue(line, q + 2) == Value(digits)
  {
    QuoteTail(line, q, digits, text);
    IndexAfterQuote(line, q, digits);
    LineEndAtEnd(line, q + 1);
    NoIndexAfter(line, q + 2);
    LastIndexAt(line, q + 1, |line|, q + 2);
  }

  /** With no quote and no newline in the key, group 1 ends at the quote that follows the key. */
  lemma {:induction false} KeyEndAfterKey(line: string, k: nat, q: nat)
    requires k <= q < |line| && line[q] == '\'' && TagAfter(line, q).Some?
    requires forall m :: k <= m < q ==> line[m] != '\'' && line[m] != '\n'
    ensures KeyEnd(line, k) == Some(q)
  {
    KeyEndIsFirst(line, k);
    var e := LineEnd(line, k);
    assert q < e;
    assert KeyEndsAt(line, q);
  }

  /** A key that a log line can carry back: no quote, which would end group 1, and no newline. */
  predicate PlainKey(key: string) {
    forall i :: 0 <= i < |key| ==> key[i] != '\'' && key[i] != '\n'
  }

  /** A message tail the index tag is the last one before: no parenthesis and no newline. */
  predicate PlainText(text: string) {
    forall i :: 0 <= i < |text| ==> text[i] != '(' && text[i] != '\n'
  }

  lemma {:induction false} Regroup<T>(x: seq<T>, a: seq<T>, b: seq<T>, c: seq<T>, d: seq<T>)
    ensures x + a + b + c + d == x + (a + b + c + d)
  {
  }

  lemma {:induction false} Regroup3<T>(a: seq<T>, b: seq<T>, c: seq<T>, d: seq<T>)
    ensures a + (b + c + d) == (a + b) + (c + d)
  {
  }

  lemma {:induction false} Slices<T>(x: seq<T>, a: seq<T>, b: seq<T>)
    requires x == a + b
    ensures x[..|a|] == a && x[|a|..] == b
  {
  }

  /** An object message is "Object '", the key, then the part from the closing quote on. */
  lemma {:induction false} ObjectMessageParts(key: string, index: nat, text: string)
    ensures ObjectMessage(key, index, text) == "Object '" + key + ("' (index=" + Pad10(index) + ")" + text)
  {
    Regroup("Object '" + key, "' (index=", Pad10(index), ")", text);
  }

  /** Where the parts of an INFO or WARNING line with an object message start. */
  lemma {:induction false} ObjectLineParts(t: Timestamp, level: Level, key: string, index: nat, text: string)
    requires t.Valid() && level != Error
    ensures var line := Line(t, Record(level, ObjectMessage(key, index, text)));
      var k := 23 + |LevelTag(LevelName(level))|;
      && |line| >= k + |key|
      && line[..23] == Asctime(t) && line[23..k] == LevelTag(LevelName(level)) && line[k..k + |key|] == key
      && line[k + |key|..] == "' (index=" + Pad10(index) + ")" + text
  {
    var line := Line(t, Record(level, ObjectMessage(key, index, text)));
    var tag := LevelTag(LevelName(level));
    var tail := "' (index=" + Pad10(index) + ")" + text;
    var rest := line[23..];
    var head := " - " + LevelName(level) + " - ";
    ObjectMessageParts(key, index, text);
    assert rest == head + ("Object '" + key + tail);
    Regroup3(head, "Object '", key, tail);
    Slices(rest, tag, key + tail);
    Slices(key + tail, key, tail);
  }

  /** The time stamp and the INFO or WARNING level at the start of a line open group 1 after the tag. */
  lemma {:induction false} KeyStartAfterTag(line: string, tag: string)
    requires |line| >= 23 && AsctimeShape(line[..23])
    requires tag == LevelTag("INFO") || tag == LevelTag("WARNING")
    requires 23 + |tag| <= |line| && line[23..23 + |tag|] == tag
    ensures KeyStart(line, 0) == Some(23 + |tag|)
  {
    AsctimeIsStamp(line, line[..23]);
    if tag == LevelTag("WARNING") {
      assert line[26] == tag[3];
      assert !Occurs(line, 23, LevelTag("INFO"));
    }
  }

  /** Group 1 is the key and group 2 the digits after it, when the key holds no quote. */
  lemma {:induction false} MatchAtStart(line: string, k: nat, key: string, digits: string, text: string)
    requires KeyStart(line, 0) == Some(k)
    requires k + |key| <= |line| && line[k..k + |key|] == key && PlainKey(key)
    requires line[k + |key|..] == "' (index=" + digits + ")" + text
    requires |digits| >= 1 && AllDigits(digits) && PlainText(text)
    ensures MatchAt(line, 0) == Some(Point(key, Value(digits)))
  {
    var q := k + |key|;
    TagAfterQuote(line, q, digits, text);
    PlainKeyInLine(line, k, key);
    KeyEndAfterKey(line, k, q);
    MatchAtGroups(line, 0, k, q);
  }

  /** A plain key copied into a line puts neither a quote nor a newline there. */
  lemma {:induction false} PlainKeyInLine(line: string, k: nat, key: string)
    requires k + |key| <= |line| && line[k..k + |key|] == key && PlainKey(key)
    ensures forall m :: k <= m < k + |key| ==> line[m] != '\'' && line[m] != '\n'
  {
    assert forall m :: k <= m < k + |key| ==> line[m] == key[m - k];
  }

  /** The groups of a match whose group 1 opens at `k` and closes at the quote at `q`. */
  lemma {:induction false} MatchAtGroups(line: string, s: nat, k: nat, q: nat)
    requires KeyStart(line, s) == Some(k) && KeyEnd(line, k) == Some(q)
    ensures k <= q < |line| && TagAfter(line, q).Some?
    ensures MatchAt(line, s) == Some(Point(line[k..q], IndexValue(line, TagAfter(line, q).value)))
  {
  }

  /**
   * A line logged at INFO or WARNING with one of restore_object's object messages is found
   * by the pattern, which captures the key and the index it was written with.
   */
  lemma {:induction false} ObjectLineRoundTrip(t: Timestamp, level: Level, key: string, index: nat, text: string)
    requires t.Valid() && level != Error && PlainKey(key) && PlainText(text)
    ensures Search(Line(t, Record(level, ObjectMessage(key, index, text)))) == Some(Point(key, index))
  {
    var line := Line(t, Record(level, ObjectMessage(key, index, text)));
    var tag := LevelTag(LevelName(level));
    ObjectLineParts(t, level, key, index, text);
    KeyStartAfterTag(line, tag);
    MatchAtStart(line, 23 + |tag|, key, Pad10(index), text);
    Pad10RoundTrip(index);
    SearchFindsLeftmost(line, 0);
  }

  /** The text after the index in the message restore_object logs for `head` at INFO or WARNING. */
  function LoggedText(head: Head): string {
    if !head.Head? || !Truthy(head.restore) then RestoredText
    else if Contains(head.restore.value, Completed) then AlreadyRestoredText
    else InProgressText
  }

  lemma {:induction false} LoggedTextPlain(head: Head)
    ensures PlainText(LoggedText(head))
  {
    if LoggedText(head) == RestoredText {
      assert PlainText(RestoredText);
    } else if LoggedText(head) == AlreadyRestoredText {
      assert PlainText(AlreadyRestoredText);
    } else {
      assert PlainText(InProgressText);
    }
  }

  /** The records restore_object logs at INFO or WARNING carry one of its object messages. */
  lemma {:induction false} RestoreRecordMessage(head: Head, call: Call, key: string, index: nat)
    ensures var r := RestoreObject(head, call, key, index);
      r.record.level != Error ==> r.record == Record(r.record.level, ObjectMessage(key, index, LoggedText(head)))
    ensures LoggedText(head) in {RestoredText, AlreadyRestoredText, InProgressText}
  {
  }

  /**
   * Every record restore_object logs at INFO or WARNING (restored, already restored, or
   * restoration in progress) is read back as the key and index of that object.
   */
  lemma {:induction false} RestoreRecordRoundTrip(t: Timestamp, head: Head, call: Call, key: string, index: nat)
    requires t.Valid() && PlainKey(key)
    ensures var r := RestoreObject(head, call, key, index);
      r.record.level != Error ==> Search(Line(t, r.record)) == Some(Point(key, index))
  {
    var r := RestoreObject(head, call, key, index);
    if r.record.level != Error {
      var text := LoggedText(head);
      RestoreRecordMessage(head, call, key, index);
      LoggedTextPlain(head);
      ObjectLineRoundTrip(t, r.record.level, key, index, text);
    }
  }

  /** `s` holds neither of the level tags the pattern accepts, ` - INFO - Object '` and ` - WARNING - Object '`. */
  predicate NoTagIn(s: string) {
    forall i :: 0 <= i <= |s| ==> !Occurs(s, i, LevelTag("INFO")) && !Occurs(s, i, LevelTag("WARNING"))
  }

  /** What a time-stamp match at `p` demands of the characters around `p`. */
  lemma {:induction false} StampStart(line: string, p: nat)
    requires StampAt(line, p)
    ensures p + 23 <= |line|
    ensures IsDigit(line[p + 1]) && IsDigit(line[p + 3]) && line[p + 4] == '-'
  {
    assert StampCharAt(line, p, 1) && StampCharAt(line, p, 3) && StampCharAt(line, p, 4);
  }

  /** Where the parts of an ERROR line start. */
  lemma {:induction false} ErrorLineParts(t: Timestamp, message: string)
    requires t.Valid()
    ensures var line := Line(t, Record(Error, message));
      && |line| == 34 + |message| && AsctimeShape(line[..23])
      && line[23..34] == " - ERROR - " && line[34..] == message
  {
    var line := Line(t, Record(Error, message));
    Slices(line[23..], " - ERROR - ", message);
  }

  /** A line with an 'E' where the level name starts holds neither tag the pattern accepts there. */
  lemma {:induction false} NoLevelTagAt(line: string)
    requires |line| > 26 && line[26] == 'E'
    ensures !Occurs(line, 23, LevelTag("INFO")) && !Occurs(line, 23, LevelTag("WARNING"))
  {
    assert LevelTag("INFO")[3] == 'I' && LevelTag("WARNING")[3] == 'W';
    if 23 + |LevelTag("INFO")| <= |line| {
      assert line[23..23 + |LevelTag("INFO")|][3] == line[26];
    }
    if 23 + |LevelTag("WARNING")| <= |line| {
      assert line[23..23 + |LevelTag("WARNING")|][3] == line[26];
    }
  }

  /** A tag found in the part of `line` after `lo` is found in that part on its own. */
  lemma {:induction false} OccursInSuffix(line: string, lo: nat, j: nat, text: string)
    requires lo <= j && lo <= |line| && Occurs(line, j, text)
    ensures Occurs(line[lo..], j - lo, text)
  {
    assert line[lo..][j - lo..j - lo + |text|] == line[j..j + |text|];
  }

  /**
   * In an ERROR line, no time stamp that starts after the line's own is followed by a level
   * tag, unless the message holds one: stamps at 1 .. 10 are impossible, and from 11 on
   * the tag would lie inside the message.
   */
  lemma {:induction false} NoTagAfterLaterStamp(line: string, message: string, p: nat)
    requires |line| == 34 + |message| && AsctimeShape(line[..23])
    requires line[23..34] == " - ERROR - " && line[34..] == message
    requires NoTagIn(message) && 0 < p && StampAt(line, p)
    ensures !Occurs(line, p + 23, LevelTag("INFO")) && !Occurs(line, p + 23, LevelTag("WARNING"))
  {
    var a, level := line[..23], " - ERROR - ";
    assert forall i :: 0 <= i < 23 ==> line[i] == a[i];
    assert forall i :: 23 <= i < 34 ==> line[i] == level[i - 23];
    StampStart(line, p);
    assert p >= 11;
    if Occurs(line, p + 23, LevelTag("INFO")) {
      OccursInSuffix(line, 34, p + 23, LevelTag("INFO"));
    }
    if Occurs(line, p + 23, LevelTag("WARNING")) {
      OccursInSuffix(line, 34, p + 23, LevelTag("WARNING"));
    }
  }

  /** What a match at `p` needs before group 1: a time stamp followed by an INFO or WARNING tag. */
  predicate StampAndTag(line: string, p: nat) {
    StampAt(line, p) && (Occurs(line, p + 23, LevelTag("INFO")) || Occurs(line, p + 23, LevelTag("WARNING")))
  }

  /** Where no position has a time stamp followed by a level tag, the pattern matches nowhere. */
  lemma {:induction false} NoStampAndTagNoMatch(line: string)
    requires forall p: nat :: p <= |line| ==> !StampAndTag(line, p)
    ensures forall p: nat :: p <= |line| ==> MatchAt(line, p).None?
  {
    forall p: nat | p <= |line| ensures MatchAt(line, p).None? {
      assert !StampAndTag(line, p);
    }
  }

  /** In an ERROR line, the pattern matches at no position, unless the message holds a level tag. */
  lemma {:induction false} ErrorLayoutNoMatch(line: string, message: string)
    requires |line| == 34 + |message| && AsctimeShape(line[..23])
    requires line[23..34] == " - ERROR - " && line[34..] == message
    requires NoTagIn(message)
    ensures forall p: nat :: p <= |line| ==> MatchAt(line, p).None?
  {
    assert line[26] == 'E' by {
      assert line[23..34][3] == line[26];
    }
    NoLevelTagAt(line);
    forall p: nat | p <= |line| ensures !StampAndTag(line, p) {
      if p > 0 && StampAt(line, p) {
        NoTagAfterLaterStamp(line, message, p);
      }
    }
    NoStampAndTagNoMatch(line);
  }

  /**
   * A line logged at ERROR is never found, provided its message does not itself hold an
   * INFO or WARNING level tag: a match at the start meets ERROR where the tag has to be,
   * and a match further on is excluded by NoTagAfterLaterStamp.
   */
  lemma {:induction false} ErrorLineNeverMatches(t: Timestamp, message: string)
    requires t.Valid() && NoTagIn(message)
    ensures Search(Line(t, Record(Error, message))) == None
  {
    var line := Line(t, Record(Error, message));
    ErrorLineParts(t, message);
    ErrorLayoutNoMatch(line, message);
    SearchFindsNothing(line);
  }

  /** ` - `, with which both level tags begin, at position `i` of `s`. */
  predicate SpacedHyphenAt(s: string, i: nat) {
    i + 3 <= |s| && s[i] == ' ' && s[i + 1] == '-' && s[i + 2] == ' '
  }

  /** ` - ` occurs nowhere in `s`. */
  predicate NoSpacedHyphen(s: string) {
    forall i: nat :: i < |s| ==> !SpacedHyphenAt(s, i)
  }

  /** A string in which ` - ` never occurs holds neither level tag. */
  lemma {:induction false} NoSpacedHyphenNoTag(s: string)
    requires NoSpacedHyphen(s)
    ensures NoTagIn(s)
  {
    forall i | 0 <= i <= |s|
      ensures !Occurs(s, i, LevelTag("INFO")) && !Occurs(s, i, LevelTag("WARNING"))
    {
      if i + 3 <= |s| {
        assert !SpacedHyphenAt(s, i);
        assert s[i..i + 3] != " - " by {
          assert s[i..i + 3][0] == s[i] && s[i..i + 3][1] == s[i + 1] && s[i..i + 3][2] == s[i + 2];
        }
      }
      assert LevelTag("INFO")[..3] == LevelTag("WARNING")[..3] == " - ";
    }
  }

  /** A string with no hyphen has no ` - `. */
  lemma {:induction false} NoHyphenNoSpacedHyphen(s: string)
    requires '-' !in s
    ensures NoSpacedHyphen(s)
  {
    forall i: nat | i < |s| ensures !SpacedHyphenAt(s, i) {
      if i + 1 < |s| {
        assert s[i + 1] in s;
      }
    }
  }

  /**
   * Joining two strings without ` - ` gives none, when one of the two characters at the
   * seam is neither blank nor hyphen: ` - ` could only straddle it with both of them so.
   */
  lemma {:induction false} NoSpacedHyphenAppend(a: string, b: string)
    requires NoSpacedHyphen(a) && NoSpacedHyphen(b)
    requires (a != [] && a[|a| - 1] != ' ' && a[|a| - 1] != '-') || (b != [] && b[0] != ' ' && b[0] != '-')
    ensures NoSpacedHyphen(a + b)
  {
    var s := a + b;
    if a != [] && b != [] {
      assert s[|a| - 1] == a[|a| - 1] && s[|a|] == b[0];
    }
    forall i: nat | i < |s| ensures !SpacedHyphenAt(s, i) {
      if i + 3 <= |a| {
        assert !SpacedHyphenAt(a, i);
        assert s[i] == a[i] && s[i + 1] == a[i + 1] && s[i + 2] == a[i + 2];
      } else if |a| <= i {
        assert !SpacedHyphenAt(b, i - |a|);
      }
    }
  }

  /**
   * The "not found." line restore_object logs at ERROR is never found when the key holds
   * no ` - `; a dated key such as logs/2024-05-01.gz is one.
   */
  lemma {:induction false} NotFoundLineNeverMatches(t: Timestamp, key: string, index: nat)
    requires t.Valid() && NoSpacedHyphen(key)
    ensures Search(Line(t, RestoreObject(NoHead, CallOk, key, index).record)) == None
  {
    var pad := Pad10(index);
    assert '-' !in pad by {
      forall k | 0 <= k < |pad| ensures pad[k] != '-' {
        assert IsDigit(pad[k]);
      }
    }
    var a, b, c, d := "Object '", "' (index=", ")", NotFoundText;
    NoHyphenNoSpacedHyphen(a);
    NoHyphenNoSpacedHyphen(b);
    NoHyphenNoSpacedHyphen(c);
    NoHyphenNoSpacedHyphen(d);
    NoHyphenNoSpacedHyphen(pad);
    NoSpacedHyphenAppend(a, key);
    NoSpacedHyphenAppend(a + key, b);
    NoSpacedHyphenAppend(a + key + b, pad);
    NoSpacedHyphenAppend(a + key + b + pad, c);
    NoSpacedHyphenAppend(a + key + b + pad + c, d);
    var m := ObjectMessage(key, index, NotFoundText);
    assert m == a + key + b + pad + c + d;
    NoSpacedHyphenNoTag(m);
    ErrorLineNeverMatches(t, m);
  }

  /** A dated archive key, whose digits come before hyphens, holds no ` - `. */
  lemma {:induction false} DatedKeyAdmitted()
    ensures NoSpacedHyphen("logs/2024-05-01.gz")
  {
    var key := "logs/2024-05-01.gz";
    assert ' ' !in key;
    forall i: nat | i < |key| ensures !SpacedHyphenAt(key, i) {
      assert key[i] in key;
    }
  }
}

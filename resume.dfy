/**
 * Resuming a restore job from its log: get_last_object of unarchive.py, and the start
 * point main derives from it before it calls restore_objects.
 */
module Resume {
  import opened Wrappers
  import opened LogTail
  import opened LogPattern
  import opened Dispatch
  import opened LogFormat
  import opened Restore
  import opened RoundTrip

  /** The log file get_last_object reads, whatever file name it is given. */
  const LogName := "unarchive.log"

  /** The number of lines get_last_object reads, whatever count it is given. */
  const LineCount := 100

  /**
   * The loop of get_last_object: the groups of the first line of `lines` that `search`
   * finds. `search` is re.search with the pattern passed to get_last_object.
   */
  function FirstMatch(lines: seq<string>, search: string -> Option<Point>): Option<Point> {
    if lines == [] then None
    else if search(lines[0]).Some? then search(lines[0])
    else FirstMatch(lines[1..], search)
  }

  /** The loop finds nothing exactly when no line matches. */
  lemma {:induction false} FirstMatchNone(lines: seq<string>, search: string -> Option<Point>)
    ensures FirstMatch(lines, search).None? <==> forall i :: 0 <= i < |lines| ==> search(lines[i]).None?
  {
    if lines != [] {
      FirstMatchNone(lines[1..], search);
      assert forall i :: 1 <= i < |lines| ==> lines[i] == lines[1..][i - 1];
    }
  }

  /** A match the loop returns is the one of the first matching line: no line before it matches. */
  lemma {:induction false} FirstMatchPosition(lines: seq<string>, search: string -> Option<Point>) returns (i: nat)
    requires FirstMatch(lines, search).Some?
    ensures i < |lines| && FirstMatch(lines, search) == search(lines[i])
    ensures forall j :: 0 <= j < i ==> search(lines[j]).None?
  {
    if search(lines[0]).Some? {
      i := 0;
    } else {
      var i' := FirstMatchPosition(lines[1..], search);
      i := i' + 1;
      assert forall j :: 1 <= j < i ==> lines[j] == lines[1..][j - 1];
    }
  }

  /** The first line that matches gives the loop's result, whatever follows it. */
  lemma {:induction false} FirstMatchAt(lines: seq<string>, search: string -> Option<Point>, i: nat)
    requires i < |lines| && search(lines[i]).Some?
    requires forall j :: 0 <= j < i ==> search(lines[j]).None?
    ensures FirstMatch(lines, search) == search(lines[i])
  {
    if i > 0 {
      assert search(lines[0]).None?;
      assert forall j :: 0 <= j < i - 1 ==> lines[1..][j] == lines[j + 1];
      FirstMatchAt(lines[1..], search, i - 1);
    }
  }

  /**
   * get_last_object scans the list it gets back to front: the match it returns is the one
   * of the line at the highest position that matches, and no line after it matches.
   */
  lemma {:induction false} LastMatchPosition(lines: seq<string>, search: string -> Option<Point>) returns (i: nat)
    requires FirstMatch(Reverse(lines), search).Some?
    ensures i < |lines| && FirstMatch(Reverse(lines), search) == search(lines[i])
    ensures forall j :: i < j < |lines| ==> search(lines[j]).None?
  {
    var r := Reverse(lines);
    var i' := FirstMatchPosition(r, search);
    i := |lines| - 1 - i';
    forall j | i < j < |lines| ensures search(lines[j]).None? {
      assert lines[j] == r[|lines| - 1 - j];
    }
  }

  /** Conversely, the last line that matches gives the back-to-front scan's result. */
  lemma {:induction false} LastMatchAt(lines: seq<string>, search: string -> Option<Point>, i: nat)
    requires i < |lines| && search(lines[i]).Some?
    requires forall j :: i < j < |lines| ==> search(lines[j]).None?
    ensures FirstMatch(Reverse(lines), search) == search(lines[i])
  {
    var r := Reverse(lines);
    forall j | 0 <= j < |lines| - 1 - i ensures search(r[j]).None? {
      assert r[j] == lines[|lines| - 1 - j];
    }
    FirstMatchAt(r, search, |lines| - 1 - i);
  }

  /** The last matching line of `segments`, when it is among the last `count`, is what scanning those gives. */
  lemma {:induction false} LastMatchInWindow(segments: seq<string>, search: string -> Option<Point>, count: nat, i: nat)
    requires count <= |segments| && |segments| - count <= i < |segments| && search(segments[i]).Some?
    requires forall j :: i < j < |segments| ==> search(segments[j]).None?
    ensures FirstMatch(Reverse(segments[|segments| - count..]), search) == search(segments[i])
  {
    var lo := |segments| - count;
    var window := segments[lo..];
    assert window[i - lo] == segments[i];
    forall j | i - lo < j < |window| ensures search(window[j]).None? {
      assert window[j] == segments[j + lo];
    }
    LastMatchAt(window, search, i - lo);
  }

  /**
   * get_last_object(file_name, N, pattern). The file read is the script's own log, looked
   * up in `files`; opening a file that does not exist raises, which is the error.
   * Otherwise: the match of the last matching line among the lines get_last_n_lines
   * returns, or none.
   */
  function GetLastObject(files: map<string, string>, fileName: string, n: int, search: string -> Option<Point>): (r: Result<Option<Point>, string>)
    ensures r.Err? <==> LogName !in files
    ensures r.Ok? ==> r.value == FirstMatch(Reverse(LastLines(files[LogName], LineCount)), search)
  {
    if LogName !in files then Err("FileNotFoundError")
    else Ok(FirstMatch(Reverse(LastLines(files[LogName], LineCount)), search))
  }

  /** The file name and the line count passed to get_last_object make no difference. */
  lemma {:induction false} ArgumentsIgnored(files: map<string, string>, search: string -> Option<Point>,
                                            fileName: string, n: int, fileName': string, n': int)
    ensures GetLastObject(files, fileName, n, search) == GetLastObject(files, fileName', n', search)
  {
  }

  /**
   * A log with fewer than 100 newlines and text before its first one comes back newest
   * first and is scanned oldest first: the result is the EARLIEST matching line.
   */
  lemma {:induction false} ShortLogPicksEarliest(files: map<string, string>, fileName: string, n: int, search: string -> Option<Point>)
    requires LogName in files
    requires var file := files[LogName]; Newlines(file) < LineCount && file != [] && file[0] != '\n'
    ensures GetLastObject(files, fileName, n, search) == Ok(FirstMatch(Split(files[LogName]), search))
  {
    ShortLogNewestFirst(files[LogName], LineCount);
    ReverseReverse(Split(files[LogName]));
  }

  /**
   * A log with at least 100 newlines is read back in file order: the result is the match
   * of the latest matching line among its last 100 segments.
   */
  lemma {:induction false} LatestMatchFound(files: map<string, string>, fileName: string, n: int,
                                            search: string -> Option<Point>, i: nat)
    requires LogName in files && Newlines(files[LogName]) >= LineCount
    requires var segments := Split(files[LogName]);
      && |segments| - LineCount <= i < |segments|
      && search(segments[i]).Some?
      && forall j :: i < j < |segments| ==> search(segments[j]).None?
    ensures GetLastObject(files, fileName, n, search) == Ok(search(Split(files[LogName])[i]))
  {
    LastLinesLong(files[LogName], LineCount);
    LastMatchInWindow(Split(files[LogName]), search, LineCount, i);
  }

  /** An empty line, such as the one a final newline leaves, never matches LOG_RE_PATTERN. */
  lemma {:induction false} EmptyLineNeverMatches()
    ensures Search([]) == None
  {
    SearchFindsNothing([]);
  }

  /** How main goes on after reading its arguments and, with --resume, the log. */
  datatype Start =
    | UsageError                                   // parser.error: more threads than the page size
    | Crashed(reason: string)                      // an exception ends the script
    | ResumeImpossible                             // the message, then exit(1)
    | Proceed(startAfter: string, startIndex: int) // restore_objects starts after this object

  /**
   * main up to restore_objects. get_last_object is called with the --log argument, which
   * it ignores, and LOG_RE_PATTERN; a result of None cannot be unpacked into the key and
   * the index.
   */
  function StartPoint(threads: int, size: int, resume: bool, files: map<string, string>, logFile: string): (s: Start)
    ensures threads > size <==> s == UsageError
    ensures threads <= size && !resume ==> s == Proceed("", -1)
    ensures var last := GetLastObject(files, logFile, LineCount, Search);
      threads <= size && resume ==>
        && (s.Crashed? <==> last.Err? || last.value.None?)
        && (s == ResumeImpossible <==> last.Ok? && last.value.Some? && last.value.value.key == "")
        && (s.Proceed? <==> last.Ok? && last.value.Some? && last.value.value.key != "")
        && (s.Proceed? ==> s.startAfter == last.value.value.key && s.startIndex == last.value.value.index)
  {
    if threads > size then UsageError
    else if !resume then Proceed("", -1)
    else match GetLastObject(files, logFile, LineCount, Search)
      case Err(e) => Crashed(e)
      case Ok(None) => Crashed("TypeError")
      case Ok(Some(last)) => if last.key == "" then ResumeImpossible else Proceed(last.key, last.index)
  }

  /**
   * Resuming from a long log whose latest line matching LOG_RE_PATTERN among the last 100
   * is one restore_object logged at INFO or WARNING, for a key with no quote and no
   * newline: the job starts after that key, and its first object gets the next index.
   */
  lemma {:induction false} ResumeFromRestoreLine(files: map<string, string>, logFile: string, threads: int, size: int,
                                                 t: Timestamp, head: Head, call: Call, key: string, index: nat, i: nat)
    requires threads <= size && LogName in files && Newlines(files[LogName]) >= LineCount
    requires t.Valid() && RestoreObject(head, call, key, index).record.level != Error
    requires PlainKey(key) && key != ""
    requires var segments := Split(files[LogName]);
      && |segments| - LineCount <= i < |segments|
      && segments[i] == Line(t, RestoreObject(head, call, key, index).record)
      && forall j :: i < j < |segments| ==> Search(segments[j]).None?
    ensures StartPoint(threads, size, true, files, logFile) == Proceed(key, index)
    ensures FirstIndex(index) == index + 1
  {
    RestoreRecordRoundTrip(t, head, call, key, index);
    LatestMatchFound(files, logFile, LineCount, Search, i);
  }
}

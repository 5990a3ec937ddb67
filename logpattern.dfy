/**
 * LOG_RE_PATTERN of unarchive.py and what re.search does with it, written out for this
 * one pattern:
 *
 *   \d{4}-\d{2}-\d{2} \d{2}:\d{2}:\d{2}.\d{3} - (?:INFO|WARNING) - Object '(.*?)'.*\(index=(\d+?)\).*
 *
 * `.` matches any character but a newline (no DOTALL flag), `\d` an ASCII digit. The
 * search takes the leftmost position where the pattern matches; there, the lazy group 1
 * stops at the first quote after which the rest can match, and the greedy `.*` before
 * `\(index=` backs off from the end of the line to the last index tag.
 */
module LogPattern {
  import opened Wrappers
  import opened Text
  import opened LogFormat

  /** What a match yields: group 1, the object key, and int(group 2), its index. */
  datatype Point = Point(key: string, index: nat)

  /** The literal characters of the time-stamp part, at the positions that are not digits. */
  function StampSeparator(k: int): char {
    if k == 4 || k == 7 then '-' else if k == 10 then ' ' else ':'
  }

  /** Position `k` of the time-stamp part matches `line[s + k]`; position 19 is the bare `.`. */
  predicate StampCharAt(line: string, s: nat, k: nat)
    requires s + k < |line|
  {
    if DigitPosition(k) then IsDigit(line[s + k])
    else if k == 19 then line[s + k] != '\n'
    else line[s + k] == StampSeparator(k)
  }

  /** `\d{4}-\d{2}-\d{2} \d{2}:\d{2}:\d{2}.\d{3}` matches at `s`. */
  predicate StampAt(line: string, s: nat) {
    s + 23 <= |line| && forall k: nat :: k < 23 ==> StampCharAt(line, s, k)
  }

  /** `text` occurs in `line` at position `i`. */
  predicate Occurs(line: string, i: nat, text: string) {
    i + |text| <= |line| && line[i..i + |text|] == text
  }

  /** ` - <level> - Object '`, the literal text around the alternation `(?:INFO|WARNING)`. */
  function LevelTag(level: string): string {
    " - " + level + " - " + "Object '"
  }

  const IndexTag := "(index="

  /** Where group 1 starts when the time stamp and ` - (?:INFO|WARNING) - Object '` match at `s`. */
  function KeyStart(line: string, s: nat): (r: Option<nat>)
    ensures r.Some? ==> r.value <= |line|
    ensures r.Some? <==> StampAt(line, s) && (Occurs(line, s + 23, LevelTag("INFO")) || Occurs(line, s + 23, LevelTag("WARNING")))
    ensures r.Some? && Occurs(line, s + 23, LevelTag("INFO")) ==> r.value == s + 23 + |LevelTag("INFO")|
    ensures r.Some? && !Occurs(line, s + 23, LevelTag("INFO")) ==> r.value == s + 23 + |LevelTag("WARNING")|
  {
    if !StampAt(line, s) then None
    else if Occurs(line, s + 23, LevelTag("INFO")) then Some(s + 23 + |LevelTag("INFO")|)
    else if Occurs(line, s + 23, LevelTag("WARNING")) then Some(s + 23 + |LevelTag("WARNING")|)
    else None
  }

  /** Where a run of `.` from `i` has to stop: the next newline, or the end of the line. */
  function LineEnd(line: string, i: nat): (e: nat)
    requires i <= |line|
    ensures i <= e <= |line| && (e < |line| ==> line[e] == '\n')
    ensures forall m :: i <= m < e ==> line[m] != '\n'
    decreases |line| - i
  {
    if i == |line| || line[i] == '\n' then i else LineEnd(line, i + 1)
  }

  /** The end of the run of digits that starts at `i`. */
  function DigitsEnd(line: string, i: nat): (e: nat)
    requires i <= |line|
    ensures i <= e <= |line| && (e < |line| ==> !IsDigit(line[e]))
    ensures forall m :: i <= m < e ==> IsDigit(line[m])
    decreases |line| - i
  {
    if i == |line| || !IsDigit(line[i]) then i else DigitsEnd(line, i + 1)
  }

  /** `\(index=(\d+?)\)` matches at `j`: the lazy digits run up to the closing parenthesis. */
  predicate IndexAt(line: string, j: nat) {
    Occurs(line, j, IndexTag) && j + 7 < DigitsEnd(line, j + 7) < |line| && line[DigitsEnd(line, j + 7)] == ')'
  }

  /** int(group 2) for the index tag at `j`. */
  function IndexValue(line: string, j: nat): nat
    requires IndexAt(line, j)
  {
    var digits := line[j + 7..DigitsEnd(line, j + 7)];
    assert forall i :: 0 <= i < |digits| ==> digits[i] == line[j + 7 + i];
    Value(digits)
  }

  /**
   * The greedy `.*` before `\(index=`: the last position in `lo .. hi` where the index tag
   * matches, or none.
   */
  function LastIndex(line: string, lo: nat, hi: nat): (r: Option<nat>)
    requires lo <= hi
    ensures r.Some? ==> lo <= r.value <= hi && IndexAt(line, r.value)
    decreases hi - lo
  {
    if IndexAt(line, hi) then Some(hi)
    else if hi == lo then None
    else LastIndex(line, lo, hi - 1)
  }

  lemma {:induction false} LastIndexIsLast(line: string, lo: nat, hi: nat)
    requires lo <= hi
    ensures var r := LastIndex(line, lo, hi);
      && (r.Some? ==> IndexAt(line, r.value) && forall j :: r.value < j <= hi ==> !IndexAt(line, j))
      && (r.None? ==> forall j :: lo <= j <= hi ==> !IndexAt(line, j))
    decreases hi - lo
  {
    if !IndexAt(line, hi) && hi != lo {
      LastIndexIsLast(line, lo, hi - 1);
    }
  }

  /** `.*\(index=(\d+?)\).*` after the quote at `q`: where the index tag it settles on starts. */
  function TagAfter(line: string, q: nat): Option<nat>
    requires q < |line|
  {
    LastIndex(line, q + 1, LineEnd(line, q + 1))
  }

  /** A quote at `q` after which the rest of the pattern matches: where group 1 can end. */
  predicate KeyEndsAt(line: string, q: nat) {
    q < |line| && line[q] == '\'' && TagAfter(line, q).Some?
  }

  /**
   * The lazy `(.*?)'`: the first quote from `e` on, with no newline before it, after which
   * the rest of the pattern matches. Quotes after which it does not match belong to the key.
   */
  function KeyEnd(line: string, e: nat): (r: Option<nat>)
    requires e <= |line|
    ensures r.Some? ==> e <= r.value < |line| && KeyEndsAt(line, r.value)
    decreases |line| - e
  {
    if e == |line| || line[e] == '\n' then None
    else if KeyEndsAt(line, e) then Some(e)
    else KeyEnd(line, e + 1)
  }

  lemma {:induction false} KeyEndIsFirst(line: string, e: nat)
    requires e <= |line|
    ensures var r := KeyEnd(line, e);
      && (r.Some? ==> KeyEndsAt(line, r.value) && forall m :: e <= m < r.value ==> line[m] != '\n' && !KeyEndsAt(line, m))
      && (r.None? ==> forall m :: e <= m < LineEnd(line, e) ==> !KeyEndsAt(line, m))
    decreases |line| - e
  {
    if e < |line| && line[e] != '\n' && !KeyEndsAt(line, e) {
      KeyEndIsFirst(line, e + 1);
    }
  }

  /**
   * The pattern matched at position `s`, with the groups the backtracking order gives.
   * Only a time stamp followed by an INFO or WARNING level can match.
   */
  function MatchAt(line: string, s: nat): (r: Option<Point>)
    ensures r.Some? ==> StampAt(line, s)
    ensures r.Some? ==> Occurs(line, s + 23, LevelTag("INFO")) || Occurs(line, s + 23, LevelTag("WARNING"))
  {
    match KeyStart(line, s)
    case None => None
    case Some(k) =>
      match KeyEnd(line, k)
      case None => None
      case Some(q) =>
        var j := TagAfter(line, q).value;
        Some(Point(line[k..q], IndexValue(line, j)))
  }

  /** For each start position 0 .. |line|, whether the pattern matches there. */
  function Matches(line: string): (found: seq<bool>)
    ensures |found| == |line| + 1
    ensures forall p :: 0 <= p <= |line| ==> found[p] == MatchAt(line, p).Some?
  {
    seq(|line| + 1, p requires 0 <= p => MatchAt(line, p).Some?)
  }

  /** The first position from `s` on that is marked in `found`: the search trying each start in turn. */
  function FirstFound(found: seq<bool>, s: nat): (r: Option<nat>)
    requires s <= |found|
    ensures r.Some? ==> s <= r.value < |found| && found[r.value]
    decreases |found| - s
  {
    if s == |found| then None
    else if found[s] then Some(s)
    else FirstFound(found, s + 1)
  }

  lemma {:induction false} FirstFoundIsFirst(found: seq<bool>, s: nat)
    requires s <= |found|
    ensures var r := FirstFound(found, s);
      && (r.Some? ==> forall p :: s <= p < r.value ==> !found[p])
      && (r.None? ==> forall p :: s <= p < |found| ==> !found[p])
    decreases |found| - s
  {
    if s < |found| && !found[s] {
      FirstFoundIsFirst(found, s + 1);
    }
  }

  /** re.search(LOG_RE_PATTERN, line), as the key and index it captures. */
  function Search(line: string): Option<Point> {
    match FirstFound(Matches(line), 0)
    case None => None
    case Some(s) => MatchAt(line, s)
  }

  /** The search finds nothing exactly when the pattern matches at no position. */
  lemma {:induction false} SearchFindsNothing(line: string)
    ensures Search(line).None? <==> forall p :: 0 <= p <= |line| ==> MatchAt(line, p).None?
  {
    var found := Matches(line);
    FirstFoundIsFirst(found, 0);
  }

  /** Where the pattern matches at `s` and at no position before it, the search finds that match. */
  lemma {:induction false} SearchFindsLeftmost(line: string, s: nat)
    requires s <= |line| && MatchAt(line, s).Some?
    requires forall p :: 0 <= p < s ==> MatchAt(line, p).None?
    ensures Search(line) == MatchAt(line, s)
  {
    var found := Matches(line);
    FirstFoundIsFirst(found, 0);
    var r := FirstFound(found, 0);
    assert found[s];
    assert r.Some? && r.value == s by {
      assert forall p :: 0 <= p < s ==> !found[p];
    }
  }
}

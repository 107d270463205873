/** Python's string primitives as used by the job tools: `isspace`, `lower`,
    `in`, `startswith`, `split`, `join`, `replace` and `strip`. */
module Text {
  import opened Seqs

  /** `str.isspace` for one character: the Unicode whitespace set Python uses. */
  predicate IsSpace(c: char) {
    var n := c as int;
    n == 32 || 9 <= n <= 13 || 28 <= n <= 31 || n == 0x85 || n == 0xA0 || n == 0x1680
    || 0x2000 <= n <= 0x200A || n == 0x2028 || n == 0x2029 || n == 0x202F || n == 0x205F
    || n == 0x3000
  }

  predicate AllSpace(s: string) {
    forall k :: 0 <= k < |s| ==> IsSpace(s[k])
  }

  predicate IsDigit(c: char) {
    '0' <= c <= '9'
  }

  function LowerChar(c: char): char {
    if 'A' <= c <= 'Z' then (c as int + 32) as char else c
  }

  /** `str.lower`, restricted to the ASCII letters. */
  function Lower(s: string): string {
    seq(|s|, i requires 0 <= i < |s| => LowerChar(s[i]))
  }

  /** `pat` starts at index `i` of `s`. */
  predicate OccursAt(s: string, pat: string, i: nat) {
    i + |pat| <= |s| && s[i..i + |pat|] == pat
  }

  /** No occurrence of `pat` starts at `from` or later. */
  ghost predicate NoOccurrenceFrom(s: string, pat: string, from: nat) {
    forall j :: from <= j ==> !OccursAt(s, pat, j)
  }

  /** `str.find(pat, from)`: the first index at or after `from` where `pat` starts. */
  function IndexFrom(s: string, pat: string, from: nat): (r: Option<nat>)
    decreases |s| - from
    ensures r.Some? ==> from <= r.value && r.value + |pat| <= |s| && OccursAt(s, pat, r.value)
  {
    if from + |pat| > |s| then None
    else if s[from..from + |pat|] == pat then
      assert OccursAt(s, pat, from);
      Some(from)
    else IndexFrom(s, pat, from + 1)
  }

  lemma {:induction false} IndexFromFirst(s: string, pat: string, from: nat)
    decreases |s| - from
    ensures var r := IndexFrom(s, pat, from);
      && (r.Some? ==> forall j :: from <= j < r.value ==> !OccursAt(s, pat, j))
      && (r.None? <==> NoOccurrenceFrom(s, pat, from))
  {
    if from + |pat| <= |s| && s[from..from + |pat|] != pat {
      IndexFromFirst(s, pat, from + 1);
      assert !OccursAt(s, pat, from);
    }
  }

  /** Python's `pat in s`. */
  function Contains(s: string, pat: string): (b: bool)
    ensures b <==> exists i :: OccursAt(s, pat, i)
  {
    IndexFromFirst(s, pat, 0);
    IndexFrom(s, pat, 0).Some?
  }

  /** `str.startswith`. */
  predicate StartsWith(s: string, prefix: string) {
    |prefix| <= |s| && s[..|prefix|] == prefix
  }

  /** `s[start:].split(sep)`: cut at each occurrence found scanning left to right,
      resuming after the separator. */
  function SplitFrom(s: string, sep: string, start: nat): (parts: seq<string>)
    requires |sep| > 0 && start <= |s|
    decreases |s| - start
    ensures |parts| >= 1
  {
    match IndexFrom(s, sep, start)
    case None => [s[start..]]
    case Some(i) => [s[start..i]] + SplitFrom(s, sep, i + |sep|)
  }

  /** `s.split(sep)` for a non-empty separator. */
  function Split(s: string, sep: string): (parts: seq<string>)
    requires |sep| > 0
    ensures |parts| >= 1
  {
    SplitFrom(s, sep, 0)
  }

  /** `sep.join(parts)`. */
  function Join(parts: seq<string>, sep: string): string {
    if |parts| == 0 then ""
    else if |parts| == 1 then parts[0]
    else parts[0] + sep + Join(parts[1..], sep)
  }

  /** `s.replace(target, replacement)`, which behaves as `replacement.join(s.split(target))`. */
  function Replace(s: string, target: string, replacement: string): string
    requires |target| > 0
  {
    Join(Split(s, target), replacement)
  }

  /** `str.lstrip()`: what is dropped from the front is whitespace. */
  function TrimLeft(s: string): (r: string)
    ensures |r| <= |s| && r == s[|s| - |r|..]
    ensures forall k :: 0 <= k < |s| - |r| ==> IsSpace(s[k])
    ensures r == [] || !IsSpace(r[0])
  {
    if |s| > 0 && IsSpace(s[0]) then TrimLeft(s[1..]) else s
  }

  /** `str.rstrip()`: what is dropped from the back is whitespace. */
  function TrimRight(s: string): (r: string)
    ensures |r| <= |s| && r == s[..|r|]
    ensures forall k :: |r| <= k < |s| ==> IsSpace(s[k])
    ensures r == [] || !IsSpace(r[|r| - 1])
  {
    if |s| > 0 && IsSpace(s[|s| - 1]) then TrimRight(s[..|s| - 1]) else s
  }

  /** `str.strip()`: drop leading and trailing whitespace. */
  function Strip(s: string): (r: string)
  {
    TrimRight(TrimLeft(s))
  }

  /** What `strip` keeps is one contiguous slice of its input, what it drops is
      whitespace, and what it keeps neither starts nor ends with whitespace. */
  lemma StripSpec(s: string)
    ensures exists i, j :: 0 <= i <= j <= |s| && Strip(s) == s[i..j] && AllSpace(s[..i]) && AllSpace(s[j..])
    ensures Strip(s) == [] || (!IsSpace(Strip(s)[0]) && !IsSpace(Strip(s)[|Strip(s)| - 1]))
  {
    var i, j := StripBounds(s);
    StripEnds(s);
  }

  /** What `strip` keeps neither starts nor ends with whitespace. */
  lemma StripEnds(s: string)
    ensures Strip(s) == [] || (!IsSpace(Strip(s)[0]) && !IsSpace(Strip(s)[|Strip(s)| - 1]))
  {
    var l := TrimLeft(s);
    var r := TrimRight(l);
    if r != [] {
      assert r[0] == l[0];
    }
  }

  /** The slice `strip` keeps, `s[i..j]`. */
  lemma StripBounds(s: string) returns (i: nat, j: nat)
    ensures i <= j <= |s| && Strip(s) == s[i..j] && AllSpace(s[..i]) && AllSpace(s[j..])
  {
    var l := TrimLeft(s);
    i := |s| - |l|;
    var r := TrimRight(l);
    j := i + |r|;
    TrimLeftDrops(s);
    TrimRightDrops(l);
    SliceOfSuffix(s, i, |r|);
  }

  lemma TrimLeftDrops(s: string)
    ensures AllSpace(s[..|s| - |TrimLeft(s)|])
  {
    var i := |s| - |TrimLeft(s)|;
    forall k | 0 <= k < i ensures IsSpace(s[..i][k]) {
      assert s[..i][k] == s[k];
    }
  }

  lemma TrimRightDrops(s: string)
    ensures AllSpace(s[|TrimRight(s)|..])
  {
    var j := |TrimRight(s)|;
    forall k | 0 <= k < |s| - j ensures IsSpace(s[j..][k]) {
      assert s[j..][k] == s[j + k];
    }
  }

  /** Text that neither starts nor ends with whitespace is its own `strip`. */
  lemma StripUnpadded(s: string)
    requires s == [] || (!IsSpace(s[0]) && !IsSpace(s[|s| - 1]))
    ensures Strip(s) == s
  {
    assert TrimLeft(s) == s;
  }

  /** `strip` yields the empty string exactly when its input is all whitespace,
      which is when `if not s.strip()` skips it. */
  lemma StripEmptyIff(s: string)
    ensures Strip(s) == [] <==> AllSpace(s)
  {
  }

  /** `strip` is idempotent. */
  lemma StripIdempotent(s: string)
    ensures Strip(Strip(s)) == Strip(s)
  {
    var r := Strip(s);
    StripSpec(s);
    if r != [] {
      assert TrimLeft(r) == r;
      assert TrimRight(r) == r;
    }
  }

  /** Re-joining the pieces of a split with the separator gives back the text. */
  lemma {:induction false} SplitFromJoin(s: string, sep: string, start: nat)
    requires |sep| > 0 && start <= |s|
    ensures Join(SplitFrom(s, sep, start), sep) == s[start..]
    decreases |s| - start
  {
    var found := IndexFrom(s, sep, start);
    if found.Some? {
      var i := found.value;
      var rest := SplitFrom(s, sep, i + |sep|);
      SplitFromJoin(s, sep, i + |sep|);
      var parts := [s[start..i]] + rest;
      assert SplitFrom(s, sep, start) == parts;
      assert parts[1..] == rest;
      assert Join(parts, sep) == s[start..i] + sep + s[i + |sep|..];
      assert s[i..i + |sep|] == sep;
      assert s[start..] == s[start..i] + s[i..i + |sep|] + s[i + |sep|..];
    }
  }

  lemma SplitJoin(s: string, sep: string)
    requires |sep| > 0
    ensures Join(Split(s, sep), sep) == s
  {
    SplitFromJoin(s, sep, 0);
  }

  /** The first piece of a split is the text before the first occurrence of the
      separator, or the whole text when there is none. */
  lemma SplitFirstPiece(s: string, sep: string)
    requires |sep| > 0
    ensures IndexFrom(s, sep, 0).None? ==> Split(s, sep) == [s]
    ensures IndexFrom(s, sep, 0).Some? ==> Split(s, sep)[0] == s[..IndexFrom(s, sep, 0).value]
  {
  }

  /** The last piece of `SplitFrom(s, sep, start)`. */
  function LastPiece(s: string, sep: string, start: nat): string
    requires |sep| > 0 && start <= |s|
    decreases |s| - start
  {
    match IndexFrom(s, sep, start)
    case None => s[start..]
    case Some(i) => LastPiece(s, sep, i + |sep|)
  }

  /** Where the last piece begins: just after the last separator the left-to-right
      scan found, or `start` when it found none. */
  function LastPieceStart(s: string, sep: string, start: nat): (m: nat)
    requires |sep| > 0 && start <= |s|
    decreases |s| - start
    ensures start <= m <= |s|
  {
    match IndexFrom(s, sep, start)
    case None => start
    case Some(i) => LastPieceStart(s, sep, i + |sep|)
  }

  lemma {:induction false} SplitLastPiece(s: string, sep: string, start: nat)
    requires |sep| > 0 && start <= |s|
    ensures var parts := SplitFrom(s, sep, start); parts[|parts| - 1] == LastPiece(s, sep, start)
    decreases |s| - start
  {
    match IndexFrom(s, sep, start)
    case None =>
    case Some(i) =>
      SplitLastPiece(s, sep, i + |sep|);
  }

  /** The split has a single piece exactly when the scan finds no separator. */
  lemma SplitSingle(s: string, sep: string, start: nat)
    requires |sep| > 0 && start <= |s|
    ensures |SplitFrom(s, sep, start)| == 1 <==> LastPieceStart(s, sep, start) == start
  {
    match IndexFrom(s, sep, start)
    case None =>
    case Some(i) =>
      assert LastPieceStart(s, sep, start) == LastPieceStart(s, sep, i + |sep|);
      assert |SplitFrom(s, sep, start)| == 1 + |SplitFrom(s, sep, i + |sep|)|;
  }

  /** The last piece is the text from `LastPieceStart` on. */
  lemma {:induction false} LastPieceIsTail(s: string, sep: string, start: nat)
    requires |sep| > 0 && start <= |s|
    ensures LastPiece(s, sep, start) == s[LastPieceStart(s, sep, start)..]
    decreases |s| - start
  {
    match IndexFrom(s, sep, start)
    case None =>
    case Some(i) =>
      LastPieceIsTail(s, sep, i + |sep|);
  }

  /** When it is not `start`, the last piece begins right after an occurrence of the separator. */
  lemma {:induction false} LastPieceAfterSeparator(s: string, sep: string, start: nat)
    requires |sep| > 0 && start <= |s|
    ensures var m := LastPieceStart(s, sep, start);
      m != start ==> |sep| <= m && OccursAt(s, sep, m - |sep|)
    decreases |s| - start
  {
    match IndexFrom(s, sep, start)
    case None =>
    case Some(i) =>
      var m := LastPieceStart(s, sep, i + |sep|);
      assert LastPieceStart(s, sep, start) == m;
      if m == i + |sep| {
        assert m - |sep| == i;
      } else {
        LastPieceAfterSeparator(s, sep, i + |sep|);
      }
  }

  /** No occurrence of the separator starts inside the last piece. */
  lemma {:induction false} LastPieceClear(s: string, sep: string, start: nat)
    requires |sep| > 0 && start <= |s|
    ensures NoOccurrenceFrom(s, sep, LastPieceStart(s, sep, start))
    decreases |s| - start
  {
    match IndexFrom(s, sep, start)
    case None =>
      IndexFromFirst(s, sep, start);
    case Some(i) =>
      LastPieceClear(s, sep, i + |sep|);
  }

  /** When the separator occurs, the last piece of `s.split(sep)` is the text after
      an occurrence of the separator, and no occurrence starts inside it. */
  lemma LastPieceOfSplit(s: string, sep: string)
    requires |sep| > 0 && Contains(s, sep)
    ensures var m := LastPieceStart(s, sep, 0); var parts := Split(s, sep);
      && |sep| <= m && OccursAt(s, sep, m - |sep|)
      && NoOccurrenceFrom(s, sep, m)
      && parts[|parts| - 1] == s[m..]
  {
    SplitLastPiece(s, sep, 0);
    LastPieceIsTail(s, sep, 0);
    SplitSingle(s, sep, 0);
    LastPieceAfterSeparator(s, sep, 0);
    LastPieceClear(s, sep, 0);
    assert IndexFrom(s, sep, 0).Some?;
    assert |Split(s, sep)| != 1;
  }

  /** A pattern holding a character the text lacks occurs nowhere in the text. */
  lemma AbsentChar(s: string, pat: string, c: char)
    requires c in pat && c !in s
    ensures !Contains(s, pat)
  {
  }

  /** A pattern holding two adjacent characters that are never adjacent in the text
      occurs nowhere in the text. */
  lemma AbsentPair(s: string, pat: string, j: nat)
    requires j + 1 < |pat|
    requires forall i :: 0 <= i < |s| - 1 ==> !(s[i] == pat[j] && s[i + 1] == pat[j + 1])
    ensures !Contains(s, pat)
  {
    forall i: nat ensures !OccursAt(s, pat, i) {
      if i + |pat| <= |s| {
        assert s[i..i + |pat|][j] == s[i + j];
        assert s[i..i + |pat|][j + 1] == s[i + j + 1];
      }
    }
  }
}

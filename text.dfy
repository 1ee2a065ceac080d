/** The string operations the core relies on, written out with Python's
    meaning: case mapping, `startswith`, `split`, `capitalize`, the ordering
    `sorted` uses on strings, and `str()` of a non-negative integer.
    Case mapping covers ASCII and the basic Cyrillic block only. */
module Text {
  import opened Util

  /** Lower-case form of one character (ASCII, Cyrillic U+0400..U+042F). */
  function Lower(c: char): char {
    if 'A' <= c <= 'Z' then (c as int + 32) as char
    else if '\U{0410}' <= c <= '\U{042F}' then (c as int + 32) as char
    else if '\U{0400}' <= c <= '\U{040F}' then (c as int + 80) as char
    else c
  }

  /** Upper-case (and title-case) form of one character. */
  function Upper(c: char): char {
    if 'a' <= c <= 'z' then (c as int - 32) as char
    else if '\U{0430}' <= c <= '\U{044F}' then (c as int - 32) as char
    else if '\U{0450}' <= c <= '\U{045F}' then (c as int - 80) as char
    else c
  }

  function LowerAll(s: string): (r: string)
    ensures |r| == |s|
    ensures forall i :: 0 <= i < |s| ==> r[i] == Lower(s[i])
  {
    if s == [] then [] else [Lower(s[0])] + LowerAll(s[1..])
  }

  /** Python's `str.capitalize`: first character upper-cased, the rest lower-cased. */
  function Capitalize(s: string): (r: string)
    ensures |r| == |s|
    ensures |s| > 0 ==> r[0] == Upper(s[0])
    ensures forall i :: 0 < i < |s| ==> r[i] == Lower(s[i])
  {
    if s == [] then [] else [Upper(s[0])] + LowerAll(s[1..])
  }

  lemma CaseMappingsIdempotent(c: char)
    ensures Lower(Lower(c)) == Lower(c)
    ensures Upper(Upper(c)) == Upper(c)
  {
  }

  /** Capitalizing twice is capitalizing once, and length never changes. */
  lemma CapitalizeIdempotent(s: string)
    ensures |Capitalize(s)| == |s|
    ensures Capitalize(Capitalize(s)) == Capitalize(s)
  {
    if s != [] {
      CaseMappingsIdempotent(s[0]);
      var t := Capitalize(s);
      assert t[1..] == LowerAll(s[1..]);
      forall i | 0 <= i < |s| - 1 ensures LowerAll(t[1..])[i] == LowerAll(s[1..])[i] {
        CaseMappingsIdempotent(s[i + 1]);
      }
    }
  }

  predicate StartsWith(s: string, prefix: string) {
    |prefix| <= |s| && s[..|prefix|] == prefix
  }

  /** Case-insensitive prefix test (Django's `istartswith` lookup). */
  predicate IStartsWith(s: string, prefix: string) {
    StartsWith(LowerAll(s), LowerAll(prefix))
  }

  predicate OccursAt(s: string, sep: string, k: int) {
    0 <= k && k + |sep| <= |s| && s[k..k + |sep|] == sep
  }

  predicate Contains(s: string, sep: string) {
    exists k :: 0 <= k <= |s| - |sep| && OccursAt(s, sep, k)
  }

  /** Shifting the string by one shifts every occurrence by one. */
  lemma OccursShift(s: string, sep: string, k: nat)
    requires |s| > 0
    ensures OccursAt(s, sep, k + 1) <==> OccursAt(s[1..], sep, k)
  {
    if k + 1 + |sep| <= |s| {
      assert s[k + 1..k + 1 + |sep|] == s[1..][k..k + |sep|];
    }
  }

  /** The first position at which `sep` occurs in `s`, if any. */
  function Find(s: string, sep: string): (r: Option<nat>)
    requires |sep| > 0
    ensures r.Some? ==> r.value + |sep| <= |s|
    decreases |s|
  {
    if |s| < |sep| then None
    else if s[..|sep|] == sep then Some(0)
    else
      match Find(s[1..], sep)
      case None => None
      case Some(i) => Some(i + 1)
  }

  /** `Find` reports the first occurrence, and nothing exactly when there is none. */
  lemma {:induction false} FindSpec(s: string, sep: string)
    requires |sep| > 0
    ensures Find(s, sep).Some? ==> OccursAt(s, sep, Find(s, sep).value)
    ensures Find(s, sep).Some? ==> forall k :: 0 <= k < Find(s, sep).value ==> !OccursAt(s, sep, k)
    ensures Find(s, sep).None? <==> !Contains(s, sep)
    decreases |s|
  {
    if |s| < |sep| {
    } else if s[..|sep|] == sep {
      assert OccursAt(s, sep, 0);
    } else {
      assert !OccursAt(s, sep, 0);
      FindSpec(s[1..], sep);
      var rest := Find(s[1..], sep);
      if rest.None? {
        forall k | 0 < k <= |s| - |sep| ensures !OccursAt(s, sep, k) {
          OccursShift(s, sep, k - 1);
        }
      } else {
        OccursShift(s, sep, rest.value);
        forall k | 0 < k < rest.value + 1 ensures !OccursAt(s, sep, k) {
          OccursShift(s, sep, k - 1);
        }
      }
    }
  }

  /** No occurrence starts before `i`: the prefix of length `i` does not contain `sep`. */
  lemma PrefixWithout(s: string, sep: string, i: nat)
    requires |sep| > 0 && i <= |s|
    requires forall k :: 0 <= k < i ==> !OccursAt(s, sep, k)
    ensures !Contains(s[..i], sep)
  {
    forall k | 0 <= k <= i - |sep| ensures !OccursAt(s[..i], sep, k) {
      assert s[..i][k..k + |sep|] == s[k..k + |sep|];
      assert !OccursAt(s, sep, k);
    }
  }

  /** `sep.join(parts)`. */
  function Join(parts: seq<string>, sep: string): string
    requires |parts| >= 1
  {
    if |parts| == 1 then parts[0] else parts[0] + sep + Join(parts[1..], sep)
  }

  /** Python's `s.split(sep)` for a non-empty separator: the pieces between
      the non-overlapping occurrences of `sep`, scanned from the left. */
  function Split(s: string, sep: string): (parts: seq<string>)
    requires |sep| > 0
    ensures |parts| >= 1
    decreases |s|
  {
    match Find(s, sep)
    case None => [s]
    case Some(i) => [s[..i]] + Split(s[i + |sep|..], sep)
  }

  /** Joining the pieces with the separator gives back the string. */
  lemma {:induction false} SplitJoins(s: string, sep: string)
    requires |sep| > 0
    ensures Join(Split(s, sep), sep) == s
    decreases |s|
  {
    match Find(s, sep)
    case None =>
    case Some(i) =>
      FindSpec(s, sep);
      var rest := Split(s[i + |sep|..], sep);
      SplitJoins(s[i + |sep|..], sep);
      assert ([s[..i]] + rest)[1..] == rest;
      assert s == s[..i] + sep + s[i + |sep|..];
  }

  /** No piece contains the separator. */
  lemma {:induction false} SplitPiecesClean(s: string, sep: string)
    requires |sep| > 0
    ensures forall i :: 0 <= i < |Split(s, sep)| ==> !Contains(Split(s, sep)[i], sep)
    decreases |s|
  {
    FindSpec(s, sep);
    match Find(s, sep)
    case None =>
    case Some(i) =>
      var rest := Split(s[i + |sep|..], sep);
      SplitPiecesClean(s[i + |sep|..], sep);
      PrefixWithout(s, sep, i);
      assert Split(s, sep) == [s[..i]] + rest;
  }

  /** `t` ends `s`. */
  predicate EndsWith(s: string, t: string) {
    |t| <= |s| && s[|s| - |t|..] == t
  }

  /** `s` ends with `c` followed by `t`. */
  predicate EndsWithAfter(s: string, c: char, t: string) {
    |t| < |s| && s[|s| - |t| - 1] == c && s[|s| - |t|..] == t
  }

  /** A suffix of a suffix is a suffix. */
  lemma EndsWithTail(s: string, k: int, u: string)
    requires 0 <= k <= |s| && EndsWith(s[k..], u)
    ensures EndsWith(s, u)
  {
    assert s[|s| - |u|..] == s[k..][|s| - k - |u|..];
  }

  /** The last piece of a split. */
  function LastPiece(s: string, sep: string): string
    requires |sep| > 0
  {
    var parts := Split(s, sep);
    parts[|parts| - 1]
  }

  /** The last piece of `s` is the last piece of what follows the first separator. */
  lemma LastPieceUnfold(s: string, sep: string, i: nat)
    requires |sep| > 0 && Find(s, sep) == Some(i)
    ensures LastPiece(s, sep) == LastPiece(s[i + |sep|..], sep)
  {
    SplitUnfold(s, sep, i);
    var rest := Split(s[i + |sep|..], sep);
    var parts := [s[..i]] + rest;
    assert parts[|parts| - 1] == rest[|rest| - 1];
  }

  /** The last piece ends the string. */
  lemma {:induction false} LastPieceEnds(s: string, sep: string)
    requires |sep| > 0
    ensures EndsWith(s, LastPiece(s, sep))
    decreases |s|
  {
    match Find(s, sep)
    case None =>
      assert Split(s, sep) == [s];
      assert s[|s| - |s|..] == s;
    case Some(i) =>
      LastPieceUnfold(s, sep, i);
      LastPieceEnds(s[i + |sep|..], sep);
      EndsWithTail(s, i + |sep|, LastPiece(s, sep));
  }

  /** After the last separator comes a tail without one: that tail is the
      last piece. The separator's first character must not recur in it, so
      that no occurrence can straddle the start of the final separator. */
  lemma {:induction false} LastPieceAfterFinalSep(s: string, sep: string, t: string)
    requires |sep| > 0 && forall m :: 0 < m < |sep| ==> sep[m] != sep[0]
    requires !Contains(t, sep)
    ensures LastPiece(s + sep + t, sep) == t
    decreases |s|
  {
    var w := s + sep + t;
    assert w[|s|..|s| + |sep|] == sep;
    assert OccursAt(w, sep, |s|);
    FindSome(w, sep);
    FindSpec(w, sep);
    var i := Find(w, sep).value;
    LastPieceUnfold(w, sep, i);
    if i == |s| {
      assert w[i + |sep|..] == t;
      SplitWithout(t, sep);
    } else {
      NoStraddle(s, sep, t, i);
      assert w[i + |sep|..] == s[i + |sep|..] + sep + t;
      LastPieceAfterFinalSep(s[i + |sep|..], sep, t);
    }
  }

  /** An occurrence that starts inside `s` ends inside it when the
      separator's first character does not recur in it. */
  lemma NoStraddle(s: string, sep: string, t: string, i: nat)
    requires |sep| > 0 && forall m :: 0 < m < |sep| ==> sep[m] != sep[0]
    requires i < |s|
    ensures OccursAt(s + sep + t, sep, i) ==> i + |sep| <= |s|
  {
    var w := s + sep + t;
    assert w[|s|] == sep[0];
    if |s| < i + |sep| <= |w| {
      assert w[i..i + |sep|][|s| - i] == w[|s|];
    }
  }

  /** A string holding a separator has a first one, and it is found. */
  lemma FindSome(s: string, sep: string)
    requires |sep| > 0 && Contains(s, sep)
    ensures Find(s, sep).Some? && OccursAt(s, sep, Find(s, sep).value)
  {
    FindSpec(s, sep);
  }

  /** A separator at `i` followed by a tail without one: the separator and
      the tail end the string. */
  lemma SepThenTail(s: string, sep: string, i: nat)
    requires |sep| > 0 && OccursAt(s, sep, i) && !Contains(s[i + |sep|..], sep)
    ensures EndsWith(s, sep + LastPiece(s[i + |sep|..], sep))
  {
    var t := s[i + |sep|..];
    SplitWithout(t, sep);
    assert s[i..] == sep + t;
    EndsWithTail(s, i, sep + t);
  }

  /** When the string holds a separator, one comes right before the last piece. */
  lemma {:induction false} LastPieceAfterSep(s: string, sep: string)
    requires |sep| > 0 && Contains(s, sep)
    ensures EndsWith(s, sep + LastPiece(s, sep))
    decreases |s|
  {
    FindSome(s, sep);
    var i := Find(s, sep).value;
    var t := s[i + |sep|..];
    LastPieceUnfold(s, sep, i);
    if Contains(t, sep) {
      LastPieceAfterSep(t, sep);
      EndsWithTail(s, i + |sep|, sep + LastPiece(t, sep));
    } else {
      SepThenTail(s, sep, i);
    }
  }

  lemma EndsWithChar(s: string, c: char, t: string)
    requires EndsWith(s, [c] + t)
    ensures EndsWithAfter(s, c, t)
  {
    var k := |s| - |t| - 1;
    assert s[k..] == [c] + t;
    assert s[k] == s[k..][0];
    assert s[|s| - |t|..] == s[k..][1..];
  }

  /** A string in which `sep` cannot occur splits into just itself. */
  lemma SplitWithout(s: string, sep: string)
    requires |sep| > 0 && !Contains(s, sep)
    ensures Split(s, sep) == [s]
  {
    FindSpec(s, sep);
  }

  /** `sep` occurs at `k` and nowhere before: splitting cuts there first. */
  lemma SplitAtFirst(s: string, sep: string, k: nat)
    requires |sep| > 0 && OccursAt(s, sep, k)
    requires forall j :: 0 <= j < k ==> !OccursAt(s, sep, j)
    ensures Split(s, sep) == [s[..k]] + Split(s[k + |sep|..], sep)
  {
    FindFirst(s, sep, k);
    SplitUnfold(s, sep, k);
  }

  /** Splitting `format + sep + rest` where `sep` occurs neither inside
      `format` nor inside `rest` gives exactly the two sides. */
  lemma SplitAround(format: string, sep: string, rest: string)
    requires |sep| > 0 && !Contains(rest, sep)
    requires forall j :: 0 <= j < |format| ==> !OccursAt(format + sep + rest, sep, j)
    ensures Split(format + sep + rest, sep) == [format, rest]
  {
    var s := format + sep + rest;
    var k := |format|;
    assert OccursAt(s, sep, k) by {
      assert s[k..k + |sep|] == sep;
    }
    SplitWithout(rest, sep);
    assert s[..k] == format && s[k + |sep|..] == rest;
    SplitAtFirst(s, sep, k);
  }

  lemma FindFirst(s: string, sep: string, k: nat)
    requires |sep| > 0 && OccursAt(s, sep, k)
    requires forall j :: 0 <= j < k ==> !OccursAt(s, sep, j)
    ensures Find(s, sep) == Some(k)
  {
    FindSpec(s, sep);
    var r := Find(s, sep);
    assert r.Some? by {
      assert Contains(s, sep);
    }
    assert r.value <= k;
    assert r.value >= k;
  }

  lemma SplitUnfold(s: string, sep: string, k: nat)
    requires |sep| > 0 && Find(s, sep) == Some(k)
    ensures Split(s, sep) == [s[..k]] + Split(s[k + |sep|..], sep)
  {
  }

  /** Python's string comparison `a < b`: lexicographic by code point. */
  predicate LexLess(a: string, b: string) {
    if a == [] then b != []
    else if b == [] then false
    else if a[0] != b[0] then a[0] < b[0]
    else LexLess(a[1..], b[1..])
  }

  lemma {:induction false} LexIrreflexive(a: string)
    ensures !LexLess(a, a)
  {
    if a != [] { LexIrreflexive(a[1..]); }
  }

  lemma {:induction false} LexTransitive(a: string, b: string, c: string)
    requires LexLess(a, b) && LexLess(b, c)
    ensures LexLess(a, c)
  {
    if a != [] && b != [] && c != [] && a[0] == b[0] && b[0] == c[0] {
      LexTransitive(a[1..], b[1..], c[1..]);
    }
  }

  lemma {:induction false} LexTotal(a: string, b: string)
    requires a != b
    ensures LexLess(a, b) || LexLess(b, a)
  {
    if a != [] && b != [] && a[0] == b[0] {
      assert a == [a[0]] + a[1..] && b == [b[0]] + b[1..];
      LexTotal(a[1..], b[1..]);
    }
  }

  function DigitChar(d: nat): (c: char)
    requires d < 10
  {
    ('0' as int + d) as char
  }

  /** Python's `str(n)` for `n >= 0`: decimal digits, no sign, no leading zero. */
  function NatToDecimal(n: nat): (s: string)
    ensures |s| >= 1
    ensures forall i :: 0 <= i < |s| ==> '0' <= s[i] <= '9'
    ensures |s| > 1 ==> s[0] != '0'
  {
    if n < 10 then [DigitChar(n)] else NatToDecimal(n / 10) + [DigitChar(n % 10)]
  }

  /** The number a string of decimal digits denotes. */
  function DecimalValue(s: string): nat
    requires forall i :: 0 <= i < |s| ==> '0' <= s[i] <= '9'
  {
    if s == [] then 0
    else 10 * DecimalValue(s[..|s| - 1]) + (s[|s| - 1] as int - '0' as int)
  }

  /** Rendering a number and reading it back gives the number. */
  lemma {:induction false} DecimalRoundTrip(n: nat)
    ensures DecimalValue(NatToDecimal(n)) == n
  {
    if n >= 10 {
      DecimalRoundTrip(n / 10);
      var s := NatToDecimal(n);
      assert s[..|s| - 1] == NatToDecimal(n / 10);
    }
  }
}

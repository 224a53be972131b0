/** The text functions of the Go standard library that markers are read with:
    decimal numbers, trimming, fields, searching and splitting. */
module Text {
  import opened Options

  predicate IsDigit(c: char) {
    '0' <= c <= '9'
  }

  predicate AllDigits(s: string) {
    forall i | 0 <= i < |s| :: IsDigit(s[i])
  }

  function DigitsValue(s: string): (n: nat)
    requires AllDigits(s)
  {
    if s == [] then 0 else 10 * DigitsValue(s[..|s| - 1]) + (s[|s| - 1] as int - '0' as int)
  }

  const MAX_INT: int := 0x7fff_ffff_ffff_ffff

  /** A decimal with an optional sign, as a 64-bit integer: leading zeros are
      fine, a value out of range is an error. */
  function Atoi(s: string): (r: Option<int>) {
    var negative := |s| > 0 && s[0] == '-';
    var digits := if |s| > 0 && (s[0] == '-' || s[0] == '+') then s[1..] else s;
    if digits == [] || !AllDigits(digits) then None
    else
      var n: int := if negative then 0 - DigitsValue(digits) else DigitsValue(digits);
      if -MAX_INT - 1 <= n <= MAX_INT then Some(n) else None
  }

  /** A number without sign or leading zeros. */
  function Itoa(n: nat): (s: string)
    ensures |s| > 0 && AllDigits(s)
  {
    if n < 10 then ['0' + n as char] else Itoa(n / 10) + ['0' + (n % 10) as char]
  }

  lemma {:induction false} DigitsOfItoa(n: nat)
    ensures DigitsValue(Itoa(n)) == n
  {
    if n < 10 {
      assert Itoa(n)[..0] == [];
    } else {
      DigitsOfItoa(n / 10);
      assert Itoa(n)[..|Itoa(n)| - 1] == Itoa(n / 10);
    }
  }

  /** Printing then reading gives the number back. */
  lemma AtoiOfItoa(n: nat)
    requires n <= MAX_INT
    ensures Atoi(Itoa(n)) == Some(n)
  {
    DigitsOfItoa(n);
    assert IsDigit(Itoa(n)[0]);
  }

  // ----- trimming -----

  /** Unicode white space. */
  predicate IsSpace(c: char) {
    || '\t' <= c <= '\r' || c == ' ' || c == '\U{0085}' || c == '\U{00A0}'
    || c == '\U{1680}' || '\U{2000}' <= c <= '\U{200A}'
    || c == '\U{2028}' || c == '\U{2029}' || c == '\U{202F}' || c == '\U{205F}' || c == '\U{3000}'
  }

  /** Where the white space that starts at i ends. */
  function SpacesFrom(s: string, i: nat): (n: nat)
    requires i <= |s|
    ensures i <= n <= |s| && (forall k | i <= k < n :: IsSpace(s[k])) && (n < |s| ==> !IsSpace(s[n]))
    decreases |s| - i
  {
    if i == |s| || !IsSpace(s[i]) then i else SpacesFrom(s, i + 1)
  }

  /** Where the white space that ends at j starts, looking back to lo. */
  function SpacesBefore(s: string, lo: nat, j: nat): (n: nat)
    requires lo <= j <= |s|
    ensures lo <= n <= j && (forall k | n <= k < j :: IsSpace(s[k])) && (lo < n ==> !IsSpace(s[n - 1]))
  {
    if j == lo || !IsSpace(s[j - 1]) then j else SpacesBefore(s, lo, j - 1)
  }

  function TrimSpace(s: string): string {
    var lo := SpacesFrom(s, 0);
    s[lo..SpacesBefore(s, lo, |s|)]
  }

  predicate Trimmed(s: string) {
    s == [] || (!IsSpace(s[0]) && !IsSpace(s[|s| - 1]))
  }

  /** Whatever characters and pairs s lacks, f lacks too. */
  ghost predicate Inherits(f: string, s: string) {
    && (forall c: char | c in f :: c in s)
    && (forall a: char, b: char | NoPair(s, a, b) :: NoPair(f, a, b))
  }

  lemma SliceInherits(s: string, i: nat, j: nat)
    requires i <= j <= |s|
    ensures Inherits(s[i..j], s)
  {
    forall a: char, b: char | NoPair(s, a, b)
      ensures NoPair(s[i..j], a, b)
    {
      forall k | 0 <= k < j - i
        ensures !PairAt(s[i..j], a, b, k)
      {
        assert !PairAt(s, a, b, i + k);
      }
    }
  }

  lemma TrimSpaceIsTrimmed(s: string)
    ensures Trimmed(TrimSpace(s)) && Inherits(TrimSpace(s), s)
    ensures TrimSpace(s) == s <==> Trimmed(s)
  {
    hide IsSpace;
    var lo := SpacesFrom(s, 0);
    SliceInherits(s, lo, SpacesBefore(s, lo, |s|));
  }

  predicate AllSpace(s: string) {
    forall i | 0 <= i < |s| :: IsSpace(s[i])
  }

  /** Trimming takes the white space off both ends, and nothing else. */
  lemma TrimSpaceExact(s: string) returns (before: string, after: string)
    ensures s == before + TrimSpace(s) + after && AllSpace(before) && AllSpace(after) && Trimmed(TrimSpace(s))
  {
    hide IsSpace;
    var lo := SpacesFrom(s, 0);
    var hi := SpacesBefore(s, lo, |s|);
    before, after := s[..lo], s[hi..];
    TrimSpaceIsTrimmed(s);
  }

  /** A trimmed text after a space keeps its place, whatever follows it. */
  lemma TrimOpen(core: string, more: string) returns (kept: string)
    requires core != "" && Trimmed(core)
    ensures TrimSpace(" " + core + more) == core + kept
  {
    var s := " " + core + more;
    assert s[1] == core[0] && s[|core|] == core[|core| - 1] && IsSpace(s[0]);
    var lo := SpacesFrom(s, 0);
    assert lo == 1;
    var hi := SpacesBefore(s, lo, |s|);
    assert hi > |core|;
    kept := s[1 + |core|..hi];
    assert s[1..1 + |core|] == core;
  }

  lemma TrimAfterSpace(s: string)
    requires Trimmed(s)
    ensures TrimSpace(" " + s) == s
  {
    var t := " " + s;
    var lo := SpacesFrom(t, 0);
    assert IsSpace(t[0]);
    assert t[1..] == s;
    if s == [] {
      assert lo == 1;
    } else {
      assert t[1] == s[0] && t[|t| - 1] == s[|s| - 1];
      assert lo == 1 && SpacesBefore(t, 1, |t|) == |t|;
    }
  }

  // ----- searching -----

  function IndexChar(s: string, c: char): (i: Option<nat>)
    ensures i.None? ==> c !in s
    ensures i.Some? ==> i.value < |s| && s[i.value] == c && c !in s[..i.value]
  {
    if s == [] then None
    else if s[0] == c then Some(0)
    else
      var rest := IndexChar(s[1..], c);
      if rest.None? then None else
        assert s[..rest.value + 1] == [s[0]] + s[1..][..rest.value];
        Some(rest.value + 1)
  }

  predicate PairAt(s: string, a: char, b: char, i: nat) {
    i + 1 < |s| && s[i] == a && s[i + 1] == b
  }

  predicate NoPair(s: string, a: char, b: char) {
    forall i | 0 <= i < |s| :: !PairAt(s, a, b, i)
  }

  /** Where a two-character token first occurs. */
  function IndexPair(s: string, a: char, b: char, from: nat): (i: Option<nat>)
    requires from <= |s| && forall j | 0 <= j < from :: !PairAt(s, a, b, j)
    ensures i.None? ==> NoPair(s, a, b)
    ensures i.Some? ==> PairAt(s, a, b, i.value) && forall j | 0 <= j < i.value :: !PairAt(s, a, b, j)
    decreases |s| - from
  {
    if from == |s| then None else if PairAt(s, a, b, from) then Some(from) else IndexPair(s, a, b, from + 1)
  }

  lemma {:induction false} IndexCharIs(s: string, c: char, n: nat)
    requires n < |s| && s[n] == c && c !in s[..n]
    ensures IndexChar(s, c) == Some(n)
  {
    if n > 0 {
      assert s[0] in s[..n];
      assert forall x | x in s[1..][..n - 1] :: x in s[..n];
      IndexCharIs(s[1..], c, n - 1);
    }
  }

  lemma IndexPairIs(s: string, a: char, b: char, n: nat)
    requires PairAt(s, a, b, n) && forall j | 0 <= j < n :: !PairAt(s, a, b, j)
    ensures IndexPair(s, a, b, 0) == Some(n)
  {
  }

  // ----- splitting -----

  predicate Token(s: string) {
    s != [] && forall i | 0 <= i < |s| :: !IsSpace(s[i])
  }

  /** Where the run of non-space that starts at i ends. */
  function WordFrom(s: string, i: nat): (n: nat)
    requires i <= |s|
    ensures i <= n <= |s| && (forall k | i <= k < n :: !IsSpace(s[k])) && (n < |s| ==> IsSpace(s[n]))
    decreases |s| - i
  {
    if i == |s| || IsSpace(s[i]) then i else WordFrom(s, i + 1)
  }

  /** The maximal runs of non-space from i on. */
  function FieldsFrom(s: string, i: nat): (words: seq<string>)
    requires i <= |s|
    ensures forall w | w in words :: Token(w)
    decreases |s| - i
  {
    var lo := SpacesFrom(s, i);
    if lo == |s| then [] else [s[lo..WordFrom(s, lo)]] + FieldsFrom(s, WordFrom(s, lo))
  }

  function Fields(s: string): (words: seq<string>)
    ensures forall w | w in words :: Token(w)
  {
    FieldsFrom(s, 0)
  }

  lemma {:induction false} FieldsInherit(s: string, i: nat)
    requires i <= |s|
    ensures forall w | w in FieldsFrom(s, i) :: Inherits(w, s)
    decreases |s| - i
  {
    hide IsSpace, Inherits;
    var lo := SpacesFrom(s, i);
    if lo < |s| {
      SliceInherits(s, lo, WordFrom(s, lo));
      FieldsInherit(s, WordFrom(s, lo));
    }
  }

  lemma FieldsOfToken(w: string)
    requires Token(w)
    ensures Fields(w) == [w]
  {
    hide IsSpace;
    assert SpacesFrom(w, 0) == 0 && WordFrom(w, 0) == |w|;
    assert FieldsFrom(w, |w|) == [] && w[0..|w|] == w;
  }

  lemma FieldsOfTwo(v: string, w: string)
    requires Token(v) && Token(w)
    ensures Fields(v + " " + w) == [v, w]
  {
    var s := v + " " + w;
    assert IsSpace(s[|v|]) && s[|v| + 1] == w[0];
    hide IsSpace;
    assert forall i | 0 <= i < |v| :: s[i] == v[i];
    assert forall i | 0 <= i < |w| :: s[|v| + 1 + i] == w[i];
    assert SpacesFrom(s, 0) == 0 && WordFrom(s, 0) == |v| && s[0..|v|] == v;
    assert SpacesFrom(s, |v|) == |v| + 1;
    WordToEnd(s, |v| + 1);
    assert s[|v| + 1..|s|] == w && FieldsFrom(s, |s|) == [];
    assert FieldsFrom(s, |v|) == [w];
  }

  lemma WordToEnd(s: string, i: nat)
    requires i <= |s| && forall k | i <= k < |s| :: !IsSpace(s[k])
    ensures WordFrom(s, i) == |s|
  {
    hide IsSpace;
  }

  /** One word, or two, with any white space around and between them. */
  lemma FieldsOfSpacedToken(a: string, v: string, b: string)
    requires AllSpace(a) && Token(v) && AllSpace(b)
    ensures Fields(a + v + b) == [v]
  {
    var s := a + v + b;
    SpacesUpTo(s, 0, |a|);
    WordUpTo(s, |a|, |a| + |v|);
    assert s[|a|..|a| + |v|] == v;
    SpacesUpTo(s, |a| + |v|, |s|);
    assert FieldsFrom(s, |a| + |v|) == [];
  }

  lemma FieldsOfSpacedTwo(a: string, v: string, b: string, w: string, c: string)
    requires AllSpace(a) && Token(v) && AllSpace(b) && b != "" && Token(w) && AllSpace(c)
    ensures Fields(a + v + b + w + c) == [v, w]
  {
    hide IsSpace, AllSpace, Token;
    var s := a + v + b + w + c;
    var i, j, k, l := |a|, |a| + |v|, |a| + |v| + |b|, |a| + |v| + |b| + |w|;
    assert s[..i] == a && s[i..j] == v && s[j..k] == b && s[k..l] == w && s[l..|s|] == c;
    SpaceAt(s, 0, i);
    WordAt(s, i, j);
    SpaceAt(s, j, k);
    WordAt(s, k, l);
    SpaceAt(s, l, |s|);
    SpacesUpTo(s, 0, i);
    WordUpTo(s, i, j);
    SpacesUpTo(s, j, k);
    WordUpTo(s, k, l);
    SpacesUpTo(s, l, |s|);
    assert FieldsFrom(s, l) == [];
    assert FieldsFrom(s, j) == [w];
  }

  lemma SpaceAt(s: string, i: nat, j: nat)
    requires i <= j <= |s| && AllSpace(s[i..j])
    ensures forall k | i <= k < j :: IsSpace(s[k])
  {
    assert forall k | i <= k < j :: s[k] == s[i..j][k - i];
  }

  lemma WordAt(s: string, i: nat, j: nat)
    requires i <= j <= |s| && Token(s[i..j])
    ensures i < j && forall k | i <= k < j :: !IsSpace(s[k])
  {
    assert forall k | i <= k < j :: s[k] == s[i..j][k - i];
  }

  lemma SpacesUpTo(s: string, i: nat, j: nat)
    requires i <= j <= |s| && (forall k | i <= k < j :: IsSpace(s[k])) && (j < |s| ==> !IsSpace(s[j]))
    ensures SpacesFrom(s, i) == j
  {
    hide IsSpace;
  }

  lemma WordUpTo(s: string, i: nat, j: nat)
    requires i <= j <= |s| && (forall k | i <= k < j :: !IsSpace(s[k])) && (j < |s| ==> IsSpace(s[j]))
    ensures WordFrom(s, i) == j
  {
    hide IsSpace;
  }

  lemma TrimSpaced(a: string, core: string, b: string)
    requires AllSpace(a) && core != "" && Trimmed(core) && AllSpace(b)
    ensures TrimSpace(a + core + b) == core
  {
    var s := a + core + b;
    assert s[|a|] == core[0] && s[|a| + |core| - 1] == core[|core| - 1];
    SpacesUpTo(s, 0, |a|);
    assert forall k | |a| + |core| <= k < |s| :: s[k] == b[k - |a| - |core|];
    var hi := SpacesBefore(s, |a|, |s|);
    assert hi == |a| + |core|;
    assert s[|a|..|a| + |core|] == core;
  }

  /** The stretches between occurrences of c. */
  function Split(s: string, c: char): (parts: seq<string>)
    ensures |parts| > 0 && forall p | p in parts :: c !in p
    decreases |s|
  {
    var i := IndexChar(s, c);
    if i.None? then [s] else [s[..i.value]] + Split(s[i.value + 1..], c)
  }

  lemma {:induction false} SplitInherits(s: string, c: char)
    ensures forall p | p in Split(s, c) :: Inherits(p, s)
    decreases |s|
  {
    var i := IndexChar(s, c);
    if i.Some? {
      SliceInherits(s, 0, i.value);
      SliceInherits(s, i.value + 1, |s|);
      assert s[0..i.value] == s[..i.value] && s[i.value + 1..|s|] == s[i.value + 1..];
      SplitInherits(s[i.value + 1..], c);
    }
  }

  function Join(parts: seq<string>, separator: string): string
    requires |parts| > 0
  {
    if |parts| == 1 then parts[0] else parts[0] + separator + Join(parts[1..], separator)
  }

  lemma SplitFirst(p: string, rest: string, c: char)
    requires c !in p
    ensures Split(p + [c] + rest, c) == [p] + Split(rest, c)
  {
    var s := p + [c] + rest;
    assert s[..|p|] == p && s[|p| + 1..] == rest;
    IndexCharIs(s, c, |p|);
  }

  lemma SplitLast(p: string, c: char)
    requires c !in p
    ensures Split(p, c) == [p]
  {
  }

  /** The parts as they come out of a list joined by ", ": all but the first
      begin with the separator's space. */
  function Spaced(parts: seq<string>): (r: seq<string>)
    ensures |r| == |parts|
  {
    seq(|parts|, i requires 0 <= i < |parts| => " " + parts[i])
  }

  lemma {:induction false} SplitJoined(parts: seq<string>)
    requires |parts| > 0 && forall p | p in parts :: ',' !in p
    ensures Split(Join(parts, ", "), ',') == [parts[0]] + Spaced(parts[1..])
    decreases |parts|
  {
    hide Split;
    assert parts[0] in parts;
    if |parts| == 1 {
      SplitLast(parts[0], ',');
    } else {
      SplitJoined(parts[1..]);
      SplitMore(parts[0], Join(parts[1..], ", "));
      assert Spaced(parts[1..]) == [" " + parts[1]] + Spaced(parts[1..][1..]);
    }
  }

  lemma SplitMore(first: string, tail: string)
    requires ',' !in first
    ensures Split(first + ", " + tail, ',') == [first] + ([" " + Split(tail, ',')[0]] + Split(tail, ',')[1..])
  {
    hide Split;
    assert first + ", " + tail == first + [','] + (" " + tail);
    SplitFirst(first, " " + tail, ',');
    SplitAfterSpace(tail);
  }

  lemma SplitAfterSpace(s: string)
    ensures Split(" " + s, ',') == [" " + Split(s, ',')[0]] + Split(s, ',')[1..]
  {
    var i := IndexChar(s, ',');
    if i.None? {
      SplitLast(" " + s, ',');
    } else {
      var p, rest := s[..i.value], s[i.value + 1..];
      assert s == p + [','] + rest && " " + s == (" " + p) + [','] + rest;
      SplitFirst(p, rest, ',');
      SplitFirst(" " + p, rest, ',');
    }
  }
}

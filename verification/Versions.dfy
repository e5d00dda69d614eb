/** Version precedence: `_strict_version` and `_version_tuple` in linkmoth_core.py, against section 11 of Semantic
    Versioning 2.0.0. Text is ASCII; digits are 0 to 9. */
module Versions {
  import opened Options

  // ----- splitting text -----

  function IndexOf(s: string, c: char): (k: nat)
    ensures k <= |s|
    ensures k < |s| ==> s[k] == c
    ensures forall i :: 0 <= i < k ==> s[i] != c
  {
    if s == [] || s[0] == c then 0 else 1 + IndexOf(s[1..], c)
  }

  /** `s.split(c)`. */
  function Split(s: string, c: char): (r: seq<string>)
    ensures r != []
    decreases |s|
  {
    var k := IndexOf(s, c);
    if k == |s| then [s] else [s[..k]] + Split(s[k + 1..], c)
  }

  /** `c.join(parts)`. */
  function Join(parts: seq<string>, c: char): string {
    if parts == [] then ""
    else if |parts| == 1 then parts[0]
    else parts[0] + [c] + Join(parts[1..], c)
  }

  lemma JoinCons(first: string, rest: seq<string>, c: char)
    requires rest != []
    ensures Join([first] + rest, c) == first + [c] + Join(rest, c)
  {
    assert ([first] + rest)[1..] == rest;
  }

  lemma {:induction false} JoinOfSplit(s: string, c: char)
    ensures Join(Split(s, c), c) == s
    decreases |s|
  {
    hide IndexOf;
    var k := IndexOf(s, c);
    if k < |s| {
      JoinOfSplit(s[k + 1..], c);
      JoinCons(s[..k], Split(s[k + 1..], c), c);
      assert s == s[..k] + [c] + s[k + 1..];
    }
  }

  lemma IndexAfter(a: string, c: char, b: string)
    requires c !in a
    ensures IndexOf(a + [c] + b, c) == |a|
    ensures (a + [c] + b)[..|a|] == a && (a + [c] + b)[|a| + 1..] == b
  {
    var s := a + [c] + b;
    assert forall i :: 0 <= i < |a| ==> s[i] == a[i] && a[i] in a;
    assert s[|a|] == c;
  }

  lemma {:induction false} SplitOfJoin(parts: seq<string>, c: char)
    requires parts != [] && forall p :: p in parts ==> c !in p
    ensures Split(Join(parts, c), c) == parts
  {
    assert parts[0] in parts;
    if |parts| == 1 {
      assert IndexOf(parts[0], c) == |parts[0]|;
    } else {
      assert forall p :: p in parts[1..] ==> p in parts;
      SplitOfJoin(parts[1..], c);
      IndexAfter(parts[0], c, Join(parts[1..], c));
      assert [parts[0]] + parts[1..] == parts;
    }
  }

  lemma {:induction false} JoinAvoids(parts: seq<string>, c: char, d: char)
    requires c != d && forall p :: p in parts ==> d !in p
    ensures d !in Join(parts, c)
  {
    if |parts| >= 1 {
      assert parts[0] in parts;
    }
    if |parts| > 1 {
      assert forall p :: p in parts[1..] ==> p in parts;
      JoinAvoids(parts[1..], c, d);
    }
  }

  // ----- the accepted versions -----

  predicate IsDigit(c: char) {
    '0' <= c <= '9'
  }

  predicate AllDigits(s: string) {
    s != [] && forall c :: c in s ==> IsDigit(c)
  }

  /** 0 or a number without leading zeros. */
  predicate CoreNumber(s: string) {
    AllDigits(s) && (s[0] == '0' ==> |s| == 1)
  }

  predicate IdentChar(c: char) {
    IsDigit(c) || 'A' <= c <= 'Z' || 'a' <= c <= 'z' || c == '-'
  }

  predicate Identifier(s: string) {
    s != [] && forall c :: c in s ==> IdentChar(c)
  }

  /** The groups of the version pattern; a stable version has no prerelease identifiers. */
  datatype Version = Version(core: seq<string>, pre: seq<string>)

  predicate Proper(v: Version) {
    && |v.core| == 3
    && (forall p :: p in v.core ==> CoreNumber(p))
    && (forall p :: p in v.pre ==> Identifier(p))
  }

  /** The text of a version. */
  function Text(v: Version): string {
    if v.pre == [] then Join(v.core, '.') else Join(v.core, '.') + ['-'] + Join(v.pre, '.')
  }

  /** `core, _, prerelease = text.partition("-")`, then both parts split at the dots. */
  function Groups(text: string): Version {
    var k := IndexOf(text, '-');
    Version(Split(text[..k], '.'), if k < |text| then Split(text[k + 1..], '.') else [])
  }

  function WithoutV(value: string): string {
    if value != [] && value[0] == 'v' then value[1..] else value
  }

  /** `_strict_version`. */
  function StrictVersion(value: string): Option<string> {
    var text := WithoutV(value);
    if Proper(Groups(text)) then Some(text) else None
  }

  lemma TextOfGroups(text: string)
    ensures Text(Groups(text)) == text
  {
    var k := IndexOf(text, '-');
    JoinOfSplit(text[..k], '.');
    if k < |text| {
      JoinOfSplit(text[k + 1..], '.');
      assert text == text[..k] + ['-'] + text[k + 1..];
    } else {
      assert text[..k] == text;
    }
  }

  lemma GroupsOfText(v: Version)
    requires Proper(v)
    ensures Groups(Text(v)) == v
  {
    forall p | p in v.core ensures '.' !in p && '-' !in p {
      assert CoreNumber(p);
    }
    forall p | p in v.pre ensures '.' !in p {
      assert Identifier(p);
    }
    SplitOfJoin(v.core, '.');
    JoinAvoids(v.core, '.', '-');
    var core := Join(v.core, '.');
    if v.pre == [] {
      assert IndexOf(core, '-') == |core|;
      assert core[..|core|] == core;
    } else {
      SplitOfJoin(v.pre, '.');
      IndexAfter(core, '-', Join(v.pre, '.'));
    }
  }

  /** Exactly the texts of proper versions are accepted, with or without a leading v, and the answer is the
      text without it. */
  lemma AcceptedExactly(value: string)
    ensures StrictVersion(value).Some? <==> exists v :: Proper(v) && WithoutV(value) == Text(v)
    ensures StrictVersion(value).Some? ==> StrictVersion(value).value == Text(Groups(WithoutV(value)))
  {
    TextOfGroups(WithoutV(value));
    if v :| Proper(v) && WithoutV(value) == Text(v) {
      GroupsOfText(v);
    }
  }

  /** Normalising twice changes nothing. */
  lemma StrictVersionIsIdempotent(value: string)
    requires StrictVersion(value).Some?
    ensures StrictVersion(StrictVersion(value).value) == StrictVersion(value)
  {
    var text := WithoutV(value);
    var v := Groups(text);
    TextOfGroups(text);
    var first := v.core[0];
    assert CoreNumber(first);
    assert Join(v.core, '.') == first + ['.'] + Join(v.core[1..], '.');
    assert text[0] == first[0];
    assert IsDigit(text[0]);
  }

  // ----- the sort key -----

  function DecimalValue(s: string): nat
    requires forall c :: c in s ==> IsDigit(c)
  {
    if s == [] then 0 else
      assert IsDigit(s[|s| - 1]);
      DecimalValue(s[..|s| - 1]) * 10 + (s[|s| - 1] as int - '0' as int)
  }

  /** One prerelease entry of the key: (0, number) or (1, text). */
  datatype Ident = Number(n: nat) | Word(s: string)

  function IdentKey(p: string): Ident {
    if AllDigits(p) then Number(DecimalValue(p)) else Word(p)
  }

  function IdentKeys(pre: seq<string>): seq<Ident> {
    seq(|pre|, i requires 0 <= i < |pre| => IdentKey(pre[i]))
  }

  /** The tuple: three numbers, 1 for stable and 0 for prerelease, the prerelease entries. */
  datatype Key = Key(core: seq<nat>, flag: nat, pre: seq<Ident>)

  function CoreValues(core: seq<string>): (r: seq<nat>)
    requires forall p :: p in core ==> CoreNumber(p)
  {
    seq(|core|, i requires 0 <= i < |core| => assert CoreNumber(core[i]); DecimalValue(core[i]))
  }

  /** `_version_tuple` of an accepted version. */
  function VersionKey(value: string): Key
    requires StrictVersion(value).Some?
  {
    var v := Groups(WithoutV(value));
    Key(CoreValues(v.core), if v.pre == [] then 1 else 0, IdentKeys(v.pre))
  }

  // ----- Python's comparison of such tuples: -1, 0 or 1 -----

  function CompareInt(a: int, b: int): int {
    if a < b then -1 else if a == b then 0 else 1
  }

  function CompareChar(a: char, b: char): int {
    CompareInt(a as int, b as int)
  }

  function CompareNat(a: nat, b: nat): int {
    CompareInt(a, b)
  }

  /** The first entries that are not equal decide; without any, the lengths. */
  function CompareSeq<T(==)>(a: seq<T>, b: seq<T>, compare: (T, T) -> int): int {
    if a == [] || b == [] then CompareInt(|a|, |b|)
    else if a[0] != b[0] then compare(a[0], b[0])
    else CompareSeq(a[1..], b[1..], compare)
  }

  function CompareIdent(a: Ident, b: Ident): int {
    match (a, b)
    case (Number(m), Number(n)) => CompareInt(m, n)
    case (Number(_), Word(_)) => -1
    case (Word(_), Number(_)) => 1
    case (Word(s), Word(t)) => CompareSeq(s, t, CompareChar)
  }

  function Compare(a: Key, b: Key): int {
    var c := CompareSeq(a.core, b.core, CompareNat);
    if c != 0 then c
    else if a.flag != b.flag then CompareInt(a.flag, b.flag)
    else CompareSeq(a.pre, b.pre, CompareIdent)
  }

  // ----- the comparison is a total order -----

  ghost predicate Ordered<T(!new)>(compare: (T, T) -> int) {
    && (forall x, y :: compare(x, y) == -compare(y, x))
    && (forall x, y :: compare(x, y) == 0 <==> x == y)
    && (forall x, y, z :: compare(x, y) <= 0 && compare(y, z) <= 0 ==> compare(x, z) <= 0)
  }

  lemma {:induction false} SeqSymmetric<T(!new)>(a: seq<T>, b: seq<T>, compare: (T, T) -> int)
    requires Ordered(compare)
    ensures CompareSeq(a, b, compare) == -CompareSeq(b, a, compare)
    ensures CompareSeq(a, b, compare) == 0 <==> a == b
  {
    if a != [] && b != [] && a[0] == b[0] {
      SeqSymmetric(a[1..], b[1..], compare);
      assert a == [a[0]] + a[1..] && b == [b[0]] + b[1..];
    }
  }

  lemma {:induction false} SeqTransitive<T(!new)>(a: seq<T>, b: seq<T>, c: seq<T>, compare: (T, T) -> int)
    requires Ordered(compare)
    requires CompareSeq(a, b, compare) <= 0 && CompareSeq(b, c, compare) <= 0
    ensures CompareSeq(a, c, compare) <= 0
  {
    if a != [] && b != [] && c != [] {
      assert compare(a[0], b[0]) <= 0 && compare(b[0], c[0]) <= 0 ==> compare(a[0], c[0]) <= 0;
      assert compare(a[0], b[0]) == -compare(b[0], a[0]);
      assert compare(a[0], b[0]) == 0 <==> a[0] == b[0];
      if a[0] == b[0] == c[0] {
        SeqTransitive(a[1..], b[1..], c[1..], compare);
      }
    }
  }

  lemma CharsOrdered()
    ensures Ordered(CompareChar) && Ordered(CompareNat)
  {
  }

  lemma IdentsOrdered()
    ensures Ordered(CompareIdent)
  {
    CharsOrdered();
    forall x, y ensures CompareIdent(x, y) == -CompareIdent(y, x) && (CompareIdent(x, y) == 0 <==> x == y) {
      if x.Word? && y.Word? {
        SeqSymmetric(x.s, y.s, CompareChar);
      }
    }
    forall x, y, z | CompareIdent(x, y) <= 0 && CompareIdent(y, z) <= 0 ensures CompareIdent(x, z) <= 0 {
      if x.Word? && y.Word? && z.Word? {
        SeqTransitive(x.s, y.s, z.s, CompareChar);
      }
    }
  }

  /** Version keys are totally ordered, and compare equal only when they are equal. */
  lemma KeysOrdered(a: Key, b: Key, c: Key)
    ensures Compare(a, b) == -Compare(b, a)
    ensures Compare(a, b) == 0 <==> a == b
    ensures Compare(a, b) <= 0 && Compare(b, c) <= 0 ==> Compare(a, c) <= 0
  {
    CharsOrdered();
    IdentsOrdered();
    SeqSymmetric(a.core, b.core, CompareNat);
    SeqSymmetric(b.core, c.core, CompareNat);
    SeqSymmetric(a.core, c.core, CompareNat);
    SeqSymmetric(a.pre, b.pre, CompareIdent);
    hide Ordered, CompareSeq;
    if Compare(a, b) <= 0 && Compare(b, c) <= 0 {
      assert CompareSeq(a.core, b.core, CompareNat) <= 0 && CompareSeq(b.core, c.core, CompareNat) <= 0;
      SeqTransitive(a.core, b.core, c.core, CompareNat);
      SeqSymmetric(b.core, a.core, CompareNat);
      if a.core == b.core == c.core && a.flag == b.flag == c.flag {
        SeqTransitive(a.pre, b.pre, c.pre, CompareIdent);
      }
    }
  }

  // ----- section 11 -----

  /** All entries before `k` are equal, and there either the left sequence has ended or its entry is less. */
  ghost predicate LowerAt<T(!new)>(a: seq<T>, b: seq<T>, k: nat, less: (T, T) -> bool) {
    && k <= |a| && k <= |b| && a[..k] == b[..k]
    && ((k == |a| && k < |b|) || (k < |a| && k < |b| && less(a[k], b[k])))
  }

  ghost predicate Lower<T(!new)>(a: seq<T>, b: seq<T>, less: (T, T) -> bool) {
    exists k: nat :: LowerAt(a, b, k, less)
  }

  ghost predicate CharLess(x: char, y: char) {
    x < y
  }

  ghost predicate NatLess(x: nat, y: nat) {
    x < y
  }

  /** 11.4.1 numbers numerically, 11.4.2 words lexically in ASCII order, 11.4.3 numbers below words. */
  ghost predicate IdentLess(a: Ident, b: Ident) {
    match (a, b)
    case (Number(m), Number(n)) => m < n
    case (Number(_), Word(_)) => true
    case (Word(_), Number(_)) => false
    case (Word(s), Word(t)) => Lower(s, t, CharLess)
  }

  /** Precedence of proper versions: 11.2 major, minor and patch numerically, in this order; 11.3 a prerelease
      below its stable version; 11.4 identifier by identifier, 11.4.4 a longer list above its prefix. */
  ghost predicate Precedes(v: Version, w: Version)
    requires Proper(v) && Proper(w)
  {
    var a, b := CoreValues(v.core), CoreValues(w.core);
    if a != b then Lower(a, b, NatLess)
    else if v.pre == [] || w.pre == [] then v.pre != [] && w.pre == []
    else Lower(IdentKeys(v.pre), IdentKeys(w.pre), IdentLess)
  }

  lemma {:induction false} CompareDecidesLower<T(!new)>(
    a: seq<T>, b: seq<T>, compare: (T, T) -> int, less: (T, T) -> bool)
    requires Ordered(compare) && forall x, y :: compare(x, y) < 0 <==> less(x, y)
    ensures CompareSeq(a, b, compare) < 0 <==> Lower(a, b, less)
  {
    if a != [] && b != [] && a[0] == b[0] {
      CompareDecidesLower(a[1..], b[1..], compare, less);
      if k: nat :| LowerAt(a[1..], b[1..], k, less) {
        assert a[..k + 1] == [a[0]] + a[1..][..k] && b[..k + 1] == [b[0]] + b[1..][..k];
        assert LowerAt(a, b, k + 1, less);
      }
      if k: nat :| LowerAt(a, b, k, less) {
        assert k > 0 by {
          assert compare(a[0], b[0]) == 0;
        }
        assert a[1..][..k - 1] == a[..k][1..] && b[1..][..k - 1] == b[..k][1..];
        assert LowerAt(a[1..], b[1..], k - 1, less);
      }
    } else if a != [] && b != [] {
      forall k: nat | 0 < k <= |a| && k <= |b| ensures a[..k] != b[..k] {
        assert a[..k][0] == a[0] && b[..k][0] == b[0];
      }
      assert LowerAt(a, b, 0, less) <==> less(a[0], b[0]);
    } else {
      assert a == [] && b != [] ==> LowerAt(a, b, 0, less);
    }
  }

  lemma IdentComparisonAgrees()
    ensures forall x, y :: CompareIdent(x, y) < 0 <==> IdentLess(x, y)
  {
    CharsOrdered();
    forall x, y ensures CompareIdent(x, y) < 0 <==> IdentLess(x, y) {
      if x.Word? && y.Word? {
        CompareDecidesLower(x.s, y.s, CompareChar, CharLess);
      }
    }
  }

  /** The tuples compare as section 11 orders the versions, for every two accepted texts. */
  lemma ComparisonAgreesWithSemver(x: string, y: string)
    requires StrictVersion(x).Some? && StrictVersion(y).Some?
    ensures Compare(VersionKey(x), VersionKey(y)) < 0 <==> Precedes(Groups(WithoutV(x)), Groups(WithoutV(y)))
  {
    var v, w := Groups(WithoutV(x)), Groups(WithoutV(y));
    CharsOrdered();
    IdentsOrdered();
    IdentComparisonAgrees();
    CompareDecidesLower(CoreValues(v.core), CoreValues(w.core), CompareNat, NatLess);
    SeqSymmetric(CoreValues(v.core), CoreValues(w.core), CompareNat);
    CompareDecidesLower(IdentKeys(v.pre), IdentKeys(w.pre), CompareIdent, IdentLess);
    hide Ordered, CompareSeq, Lower, Groups, CoreValues, IdentKeys, Proper;
  }

  // ----- numbers as digit strings -----

  predicate Digits(s: string) {
    forall i :: 0 <= i < |s| ==> '0' <= s[i] <= '9'
  }

  function TenTo(n: nat): nat {
    if n == 0 then 1 else 10 * TenTo(n - 1)
  }

  lemma DigitsAreDigits(s: string)
    ensures Digits(s) <==> forall c :: c in s ==> IsDigit(c)
  {
    if Digits(s) {
      forall c | c in s ensures IsDigit(c) {
        var i :| 0 <= i < |s| && s[i] == c;
      }
    }
    if forall c :: c in s ==> IsDigit(c) {
      forall i | 0 <= i < |s| ensures '0' <= s[i] <= '9' {
        assert IsDigit(s[i]);
      }
    }
  }

  function ValueOf(s: string): nat
    requires Digits(s)
  {
    DigitsAreDigits(s);
    DecimalValue(s)
  }

  lemma TenTimes(d: int, t: int)
    ensures (d * t) * 10 == d * (10 * t)
  {
  }

  lemma LastDigitLast(s: string)
    requires Digits(s) && s != []
    ensures Digits(s[..|s| - 1])
    ensures ValueOf(s) == ValueOf(s[..|s| - 1]) * 10 + (s[|s| - 1] as int - '0' as int)
  {
  }

  /** The first digit counts most. */
  lemma {:induction false} FirstDigitFirst(s: string)
    requires Digits(s) && s != []
    ensures Digits(s[1..])
    ensures ValueOf(s) == (s[0] as int - '0' as int) * TenTo(|s| - 1) + ValueOf(s[1..])
  {
    if |s| > 1 {
      var front := s[..|s| - 1];
      LastDigitLast(s);
      LastDigitLast(s[1..]);
      hide ValueOf;
      FirstDigitFirst(front);
      assert front[1..] == s[1..][..|s[1..]| - 1];
      assert s[1..][|s[1..]| - 1] == s[|s| - 1];
      TenTimes(s[0] as int - '0' as int, TenTo(|s| - 2));
    } else {
      assert s[..0] == [] && s[1..] == [];
    }
  }

  lemma {:induction false} BelowTenTo(s: string)
    requires Digits(s)
    ensures ValueOf(s) < TenTo(|s|)
  {
    if s != [] {
      BelowTenTo(s[..|s| - 1]);
    }
  }

  lemma ScaledDigits(a: int, b: int, t: nat)
    requires a < b
    ensures a * t + t <= b * t
  {
    assert (a + 1) * t <= b * t;
  }

  lemma FirstDigitDecides(a: string, b: string)
    requires Digits(a) && Digits(b) && |a| == |b| && a != [] && a[0] < b[0]
    ensures ValueOf(a) < ValueOf(b)
  {
    FirstDigitFirst(a);
    FirstDigitFirst(b);
    BelowTenTo(a[1..]);
    hide ValueOf, TenTo;
    ScaledDigits(a[0] as int - '0' as int, b[0] as int - '0' as int, TenTo(|a| - 1));
  }

  /** `a` and `b` differ first at `k`, where `a` has the smaller character. */
  predicate LessAt(a: string, b: string, k: nat) {
    k < |a| && k < |b| && a[..k] == b[..k] && a[k] < b[k]
  }

  lemma LessAtCons(a: string, b: string, k: nat)
    requires LessAt(a, b, k) && k > 0
    ensures a[0] == b[0] && LessAt(a[1..], b[1..], k - 1)
  {
    assert a[..k][0] == a[0] && b[..k][0] == b[0];
    assert a[1..][..k - 1] == a[..k][1..] && b[1..][..k - 1] == b[..k][1..];
  }

  lemma {:induction false} SameLengthLess(a: string, b: string, k: nat)
    requires Digits(a) && Digits(b) && |a| == |b| && LessAt(a, b, k)
    ensures ValueOf(a) < ValueOf(b)
  {
    hide ValueOf;
    if k == 0 {
      FirstDigitDecides(a, b);
    } else {
      LessAtCons(a, b, k);
      FirstDigitFirst(a);
      FirstDigitFirst(b);
      SameLengthLess(a[1..], b[1..], k - 1);
    }
  }

  lemma {:induction false} FirstDifference(a: string, b: string) returns (k: nat)
    requires |a| == |b| && a != b
    ensures LessAt(a, b, k) || LessAt(b, a, k)
  {
    if a[0] != b[0] {
      k := 0;
    } else {
      assert a == [a[0]] + a[1..] && b == [b[0]] + b[1..];
      var j := FirstDifference(a[1..], b[1..]);
      k := j + 1;
      assert a[..k] == [a[0]] + a[1..][..j] && b[..k] == [b[0]] + b[1..][..j];
    }
  }

  /** Of two digit strings of the same length the one with the greater first differing digit is greater. */
  lemma SameLengthOrder(a: string, b: string)
    requires Digits(a) && Digits(b) && |a| == |b|
    ensures ValueOf(a) < ValueOf(b) <==> exists k: nat :: LessAt(a, b, k)
    ensures ValueOf(a) == ValueOf(b) <==> a == b
  {
    hide ValueOf, LessAt, Digits;
    if a != b {
      var k := FirstDifference(a, b);
      if LessAt(a, b, k) {
        SameLengthLess(a, b, k);
      } else {
        SameLengthLess(b, a, k);
      }
    }
    if j: nat :| LessAt(a, b, j) {
      SameLengthLess(a, b, j);
    }
  }

  /** A longer number that does not begin with a zero is greater. */
  lemma LongerIsGreater(a: string, b: string)
    requires Digits(a) && Digits(b) && |a| < |b| && b[0] != '0'
    ensures ValueOf(a) < ValueOf(b)
  {
    FirstDigitFirst(b);
    BelowTenTo(a);
    TenToGrows(|a|, |b| - 1);
    ScaledDigits(0, b[0] as int - '0' as int, TenTo(|b| - 1));
  }

  lemma {:induction false} TenToGrows(m: nat, n: nat)
    requires m <= n
    ensures TenTo(m) <= TenTo(n)
  {
    if m < n {
      TenToGrows(m, n - 1);
    }
  }

  /** A leading zero does not count. */
  lemma LeadingZeroIsNothing(s: string)
    requires Digits(s)
    ensures Digits("0" + s) && ValueOf("0" + s) == ValueOf(s)
  {
    FirstDigitFirst("0" + s);
    assert ("0" + s)[1..] == s;
  }

  /** How two identifiers of a prerelease compare: digits as numbers, other text by its characters, digits below other
      text. */
  lemma IdentKeysTell(a: string, b: string)
    requires Identifier(a) && Identifier(b)
    ensures Digits(a) && Digits(b) ==> (IdentLess(IdentKey(a), IdentKey(b)) <==> ValueOf(a) < ValueOf(b))
    ensures Digits(a) && Digits(b) ==> (IdentKey(a) == IdentKey(b) <==> ValueOf(a) == ValueOf(b))
    ensures Digits(a) && !Digits(b) ==> IdentLess(IdentKey(a), IdentKey(b)) && !IdentLess(IdentKey(b), IdentKey(a))
    ensures !Digits(a) && !Digits(b) ==> (IdentLess(IdentKey(a), IdentKey(b)) <==>
      exists k: nat :: k <= |a| && k < |b| && a[..k] == b[..k] && (k == |a| || a[k] < b[k]))
    ensures !Digits(a) && !Digits(b) ==> (IdentKey(a) == IdentKey(b) <==> a == b)
  {
    DigitsAreDigits(a);
    DigitsAreDigits(b);
    if !Digits(a) && !Digits(b) {
      if k: nat :| LowerAt(a, b, k, CharLess) {
        assert k <= |a| && k < |b| && a[..k] == b[..k];
      }
      if k: nat :| k <= |a| && k < |b| && a[..k] == b[..k] && (k == |a| || a[k] < b[k]) {
        assert LowerAt(a, b, k, CharLess);
      }
    }
  }

  /** The core numbers of accepted versions compare as digit strings: the longer is greater, and equal lengths go by the
      first differing digit. */
  lemma CoreNumbersTell(a: string, b: string)
    requires CoreNumber(a) && CoreNumber(b)
    ensures Digits(a) && Digits(b)
    ensures ValueOf(a) < ValueOf(b) <==> |a| < |b| || (|a| == |b| && exists k: nat :: LessAt(a, b, k))
    ensures ValueOf(a) == ValueOf(b) <==> a == b
  {
    DigitsAreDigits(a);
    DigitsAreDigits(b);
    hide ValueOf;
    if |a| < |b| {
      LongerIsGreater(a, b);
    } else if |b| < |a| {
      LongerIsGreater(b, a);
    } else {
      SameLengthOrder(a, b);
    }
  }

  /** The tuple's core is the values of the three numbers. */
  lemma CoreValuesTell(v: Version, i: nat)
    requires Proper(v) && i < 3
    ensures Digits(v.core[i]) && CoreValues(v.core)[i] == ValueOf(v.core[i])
  {
    assert CoreNumber(v.core[i]);
    DigitsAreDigits(v.core[i]);
  }

  lemma CoreNumberTells(p: string)
    ensures CoreNumber(p) <==> p != "" && Digits(p) && (p[0] == '0' ==> p == "0")
  {
    DigitsAreDigits(p);
  }

  /** The characters of an identifier. */
  predicate IdentText(p: string) {
    p != "" && forall k :: 0 <= k < |p| ==>
      ('0' <= p[k] <= '9') || ('A' <= p[k] <= 'Z') || ('a' <= p[k] <= 'z') || p[k] == '-'
  }

  lemma IdentifierTells(p: string)
    ensures Identifier(p) <==> IdentText(p)
  {
    if IdentText(p) {
      forall c | c in p ensures IdentChar(c) {
        var k :| 0 <= k < |p| && p[k] == c;
      }
    }
    if Identifier(p) {
      forall k | 0 <= k < |p| ensures IdentChar(p[k]) {
        assert p[k] in p;
      }
    }
  }

  /** The version pattern, character by character. */
  lemma ProperTells(v: Version)
    ensures Proper(v) <==>
      && |v.core| == 3
      && (forall i :: 0 <= i < 3 ==>
            v.core[i] != "" && Digits(v.core[i]) && (v.core[i][0] == '0' ==> v.core[i] == "0"))
      && (forall j :: 0 <= j < |v.pre| ==> IdentText(v.pre[j]))
  {
    forall i | 0 <= i < |v.core|
      ensures CoreNumber(v.core[i]) <==>
        v.core[i] != "" && Digits(v.core[i]) && (v.core[i][0] == '0' ==> v.core[i] == "0")
    {
      CoreNumberTells(v.core[i]);
    }
    forall j | 0 <= j < |v.pre| ensures Identifier(v.pre[j]) <==> IdentText(v.pre[j]) {
      IdentifierTells(v.pre[j]);
    }
    hide CoreNumber, Identifier, Digits, IdentText;
  }

  /** How the text of a version is put together. */
  lemma TextTells(a: string, b: string, c: string, p: string, q: string)
    ensures Text(Version([a, b, c], [])) == a + "." + b + "." + c
    ensures Text(Version([a, b, c], [p])) == a + "." + b + "." + c + "-" + p
    ensures Text(Version([a, b, c], [p, q])) == a + "." + b + "." + c + "-" + p + "." + q
  {
    assert [a, b, c][1..] == [b, c] && [b, c][1..] == [c] && [p, q][1..] == [q];
    assert Join([b, c], '.') == b + ['.'] + c && Join([p, q], '.') == p + ['.'] + q && Join([p], '.') == p;
    assert Join([a, b, c], '.') == a + ['.'] + (b + ['.'] + c);
    var core := a + "." + b + "." + c;
    assert Join([a, b, c], '.') == core;
    assert core + ['-'] + (p + ['.'] + q) == core + "-" + p + "." + q;
  }

  /** A leading v is accepted once and dropped. */
  lemma LeadingV(t: string)
    requires StrictVersion(t).Some? && (t == "" || t[0] != 'v')
    ensures StrictVersion("v" + t) == Some(t) && StrictVersion(t) == Some(t)
  {
    assert ("v" + t)[1..] == t;
  }
}

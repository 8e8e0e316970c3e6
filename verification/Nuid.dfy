/** The NUID generator: a random prefix and a fixed-width base-62 sequence number. */
module Nuid {

  type Byte = b: int | 0 <= b < 256

  const BASE := 62
  const PREFIX_LENGTH := 12
  const SEQ_LENGTH := 10
  const MAX_SEQ := 839299365868340224  // BASE to the power SEQ_LENGTH
  const MIN_INC := 33
  const MAX_INC := 333
  const INC := MAX_INC - MIN_INC

  /** The ASCII code of the `d`-th of the digits `0`-`9`, `A`-`Z`, `a`-`z`. */
  function Digit(d: nat): Byte
    requires d < BASE
  {
    if d < 10 then '0' as int + d else if d < 36 then 'A' as int + (d - 10) else 'a' as int + (d - 36)
  }

  predicate IsDigit(b: Byte) {
    '0' as int <= b <= '9' as int || 'A' as int <= b <= 'Z' as int || 'a' as int <= b <= 'z' as int
  }

  /** The number a digit stands for. */
  function DigitValue(b: Byte): (d: nat)
    requires IsDigit(b)
    ensures d < BASE && Digit(d) == b
  {
    if b <= '9' as int then b - '0' as int else if b <= 'Z' as int then b - 'A' as int + 10 else b - 'a' as int + 36
  }

  // ----- fixed-width base 62 -----

  function Pow62(w: nat): (p: nat)
    ensures p > 0
  {
    if w == 0 then 1 else BASE * Pow62(w - 1)
  }

  ghost predicate AllDigits(s: seq<Byte>) {
    forall i :: 0 <= i < |s| ==> IsDigit(s[i])
  }

  /** The `w` low-order digits of `n`, the last digit last. */
  function Suffix(n: nat, w: nat): (s: seq<Byte>)
    ensures |s| == w && AllDigits(s)
  {
    if w == 0 then [] else Suffix(n / BASE, w - 1) + [Digit(n % BASE)]
  }

  ghost function Decode(s: seq<Byte>): nat
    requires AllDigits(s)
  {
    if s == [] then 0 else Decode(s[..|s| - 1]) * BASE + DigitValue(s[|s| - 1])
  }

  ghost predicate LexLess(s: seq<Byte>, t: seq<Byte>) {
    exists i :: 0 <= i < |s| && i < |t| && s[..i] == t[..i] && s[i] < t[i]
  }

  lemma {:induction false} DigitRoundTrip(d: nat)
    requires d < BASE
    ensures IsDigit(Digit(d)) && DigitValue(Digit(d)) == d
  {}

  /** What `w` digits can hold of `n`. */
  function Remainder(n: nat, w: nat): (r: nat) {
    if w == 0 then 0 else BASE * Remainder(n / BASE, w - 1) + n % BASE
  }

  lemma {:induction false} RemainderStep(n: nat, q: nat, p: nat, r: nat)
    requires n / BASE == q * p + r
    ensures n == q * (BASE * p) + (BASE * r + n % BASE)
  {
    calc {
      n;
      BASE * (n / BASE) + n % BASE;
      BASE * (q * p) + BASE * r + n % BASE;
      q * (BASE * p) + (BASE * r + n % BASE);
    }
  }

  /** It is the remainder of a division by the power. */
  lemma {:induction false} RemainderLeft(n: nat, w: nat) returns (q: nat)
    ensures n == q * Pow62(w) + Remainder(n, w) && Remainder(n, w) < Pow62(w)
  {
    if w == 0 {
      q := n;
    } else {
      q := RemainderLeft(n / BASE, w - 1);
      RemainderStep(n, q, Pow62(w - 1), Remainder(n / BASE, w - 1));
    }
  }

  lemma {:induction false} DecodeSuffix(n: nat, w: nat)
    ensures Decode(Suffix(n, w)) == Remainder(n, w)
  {
    if w > 0 {
      DecodeSuffix(n / BASE, w - 1);
      DigitRoundTrip(n % BASE);
      assert Suffix(n, w)[..w - 1] == Suffix(n / BASE, w - 1);
    }
  }

  lemma {:induction false} PowTen()
    ensures Pow62(SEQ_LENGTH) == MAX_SEQ
  {
    assert Pow62(2) == 3844;
    assert Pow62(4) == 14776336;
    assert Pow62(6) == 56800235584;
    assert Pow62(8) == 218340105584896;
  }

  /** The suffix of a sequence number decodes to it, modulo the capacity of ten digits. */
  lemma {:induction false} SuffixDecodes(n: nat)
    ensures Decode(Suffix(n, SEQ_LENGTH)) == n % MAX_SEQ
  {
    DecodeSuffix(n, SEQ_LENGTH);
    var q := RemainderLeft(n, SEQ_LENGTH);
    PowTen();
    DivisionIsUnique(n, q, Remainder(n, SEQ_LENGTH));
  }

  lemma {:induction false} DivisionIsUnique(n: nat, q: nat, r: nat)
    requires n == q * MAX_SEQ + r && r < MAX_SEQ
    ensures n % MAX_SEQ == r
  {}

  lemma {:induction false} DigitsAreUnique(a: nat, x: nat, b: nat, y: nat)
    requires x < BASE && y < BASE
    ensures a * BASE + x == b * BASE + y ==> a == b && x == y
    ensures a * BASE + x < b * BASE + y <==> a < b || (a == b && x < y)
  {}

  lemma {:induction false} DecodeLast(s: seq<Byte>)
    requires s != [] && AllDigits(s)
    ensures AllDigits(s[..|s| - 1]) && IsDigit(s[|s| - 1])
    ensures Decode(s) == Decode(s[..|s| - 1]) * BASE + DigitValue(s[|s| - 1])
  {}

  lemma {:induction false} DecodeInjective(s: seq<Byte>, t: seq<Byte>)
    requires |s| == |t| && AllDigits(s) && AllDigits(t) && Decode(s) == Decode(t)
    ensures s == t
    decreases |s|
  {
    if s != [] {
      var n := |s| - 1;
      DecodeLast(s);
      DecodeLast(t);
      DigitsAreUnique(Decode(s[..n]), DigitValue(s[n]), Decode(t[..n]), DigitValue(t[n]));
      DecodeInjective(s[..n], t[..n]);
      assert s == s[..n] + [s[n]] && t == t[..n] + [t[n]];
    }
  }

  /** On digit strings of one width, numeric order is lexicographic order. */
  lemma {:induction false} LexOrder(s: seq<Byte>, t: seq<Byte>)
    requires |s| == |t| && AllDigits(s) && AllDigits(t) && Decode(s) < Decode(t)
    ensures LexLess(s, t)
    decreases |s|
  {
    var n := |s| - 1;
    DecodeLast(s);
    DecodeLast(t);
    DigitsAreUnique(Decode(s[..n]), DigitValue(s[n]), Decode(t[..n]), DigitValue(t[n]));
    if Decode(s[..n]) < Decode(t[..n]) {
      LexOrder(s[..n], t[..n]);
      LexLessExtends(s[..n], t[..n], s, t);
    } else {
      DecodeInjective(s[..n], t[..n]);
      assert s[n] < t[n];
    }
  }

  lemma {:induction false} LexLessExtends(s: seq<Byte>, t: seq<Byte>, longer: seq<Byte>, other: seq<Byte>)
    requires LexLess(s, t) && s <= longer && t <= other
    ensures LexLess(longer, other)
  {
    var i :| 0 <= i < |s| && i < |t| && s[..i] == t[..i] && s[i] < t[i];
    assert longer[..i] == s[..i] && other[..i] == t[..i];
  }

  lemma {:induction false} LexLessAfterPrefix(prefix: seq<Byte>, s: seq<Byte>, t: seq<Byte>)
    requires LexLess(s, t)
    ensures LexLess(prefix + s, prefix + t)
  {
    var i :| 0 <= i < |s| && i < |t| && s[..i] == t[..i] && s[i] < t[i];
    var j := |prefix| + i;
    assert (prefix + s)[..j] == prefix + s[..i] && (prefix + t)[..j] == prefix + t[..i];
    assert (prefix + s)[j] == s[i] && (prefix + t)[j] == t[i];
  }

  lemma {:induction false} LexTransitive(s: seq<Byte>, t: seq<Byte>, u: seq<Byte>)
    requires LexLess(s, t) && LexLess(t, u)
    ensures LexLess(s, u)
  {
    var i :| 0 <= i < |s| && i < |t| && s[..i] == t[..i] && s[i] < t[i];
    var j :| 0 <= j < |t| && j < |u| && t[..j] == u[..j] && t[j] < u[j];
    var k := if i < j then i else j;
    assert s[..k] == s[..i][..k] == t[..i][..k] == t[..k] == t[..j][..k] == u[..j][..k] == u[..k];
    assert i < j ==> t[..j][i] == u[..j][i];
    assert j < i ==> s[..i][j] == t[..i][j];
  }

  // ----- ids of one epoch -----

  /** The id issued for sequence number `n` under `prefix`. */
  function Id(prefix: seq<Byte>, n: nat): seq<Byte> {
    prefix + Suffix(n, SEQ_LENGTH)
  }

  ghost predicate Increasing(ids: seq<seq<Byte>>) {
    forall i, j :: 0 <= i < j < |ids| ==> LexLess(ids[i], ids[j])
  }

  lemma {:induction false} IncreasingDistinct(ids: seq<seq<Byte>>)
    requires Increasing(ids)
    ensures forall i, j :: 0 <= i < j < |ids| ==> ids[i] != ids[j]
  {
    forall i, j | 0 <= i < j < |ids| ensures ids[i] != ids[j] {
      assert LexLess(ids[i], ids[j]);
    }
  }

  lemma {:induction false} NextIdIsGreater(prefix: seq<Byte>, m: nat, n: nat)
    requires m < n < MAX_SEQ
    ensures LexLess(Id(prefix, m), Id(prefix, n))
  {
    SuffixesAscend(m, n);
    LexLessAfterPrefix(prefix, Suffix(m, SEQ_LENGTH), Suffix(n, SEQ_LENGTH));
  }

  lemma {:induction false} SuffixesAscend(m: nat, n: nat)
    requires m < n < MAX_SEQ
    ensures LexLess(Suffix(m, SEQ_LENGTH), Suffix(n, SEQ_LENGTH))
  {
    SuffixDecodes(m);
    SuffixDecodes(n);
    BelowCapacity(m);
    BelowCapacity(n);
    LexOrder(Suffix(m, SEQ_LENGTH), Suffix(n, SEQ_LENGTH));
  }

  lemma {:induction false} BelowCapacity(n: nat)
    requires n < MAX_SEQ
    ensures n % MAX_SEQ == n
  {}

  lemma {:induction false} IncreasingExtends(ids: seq<seq<Byte>>, id: seq<Byte>)
    requires Increasing(ids) && (ids != [] ==> LexLess(ids[|ids| - 1], id))
    ensures Increasing(ids + [id])
  {
    forall i | 0 <= i < |ids| ensures LexLess(ids[i], id) {
      if i < |ids| - 1 {
        LexTransitive(ids[i], ids[|ids| - 1], id);
      }
    }
  }

  /** `ids` were issued in order under `prefix`, the last one for `n`. */
  ghost predicate Epoch(ids: seq<seq<Byte>>, prefix: seq<Byte>, n: nat) {
    Increasing(ids) &&
    (ids != [] ==> ids[|ids| - 1] == Id(prefix, n)) &&
    forall i :: 0 <= i < |ids| ==> prefix <= ids[i]
  }

  lemma {:induction false} EpochExtends(ids: seq<seq<Byte>>, prefix: seq<Byte>, m: nat, n: nat)
    requires Epoch(ids, prefix, m) && (ids != [] ==> m < n < MAX_SEQ)
    ensures Epoch(ids + [Id(prefix, n)], prefix, n)
    ensures AllDigits(prefix) ==> AllDigits(Id(prefix, n))
    ensures Id(prefix, n)[|prefix|..] == Suffix(n, SEQ_LENGTH) && Decode(Suffix(n, SEQ_LENGTH)) == n % MAX_SEQ
  {
    if ids != [] {
      NextIdIsGreater(prefix, m, n);
    }
    IncreasingExtends(ids, Id(prefix, n));
    SuffixDecodes(n);
  }

  class NUID {
    var seqNo: nat
    var inc: nat
    var prefix: array<Byte>
    ghost var issued: seq<seq<Byte>>  // the ids returned since the prefix was last drawn

    ghost predicate Valid()
      reads this, prefix
    {
      prefix.Length == PREFIX_LENGTH && AllDigits(prefix[..]) &&
      seqNo <= MAX_SEQ && MIN_INC <= inc <= MAX_INC &&
      Epoch(issued, prefix[..], seqNo)
    }

    constructor (tokenBytes: seq<Byte>, seqDraw: nat, incDraw: nat)
      requires |tokenBytes| == PREFIX_LENGTH && seqDraw <= MAX_SEQ && BASE + 1 <= incDraw <= INC
      ensures Valid() && fresh(prefix) && issued == []
      ensures seqNo == seqDraw && inc == MIN_INC + incDraw
    {
      seqNo := seqDraw;
      inc := MIN_INC + incDraw;
      prefix := new Byte[0];
      issued := [];
      new;
      RandomizePrefix(tokenBytes);
    }

    method RandomizePrefix(tokenBytes: seq<Byte>)
      requires |tokenBytes| == PREFIX_LENGTH
      modifies this
      ensures fresh(prefix) && prefix.Length == PREFIX_LENGTH
      ensures forall i :: 0 <= i < PREFIX_LENGTH ==> prefix[i] == Digit(tokenBytes[i] % BASE)
      ensures AllDigits(prefix[..])
      ensures issued == [] && seqNo == old(seqNo) && inc == old(inc)
    {
      prefix := new Byte[PREFIX_LENGTH](i requires 0 <= i < PREFIX_LENGTH => Digit(tokenBytes[i] % BASE));
      issued := [];
    }

    method ResetSequential(seqDraw: nat, incDraw: nat)
      requires seqDraw <= MAX_SEQ && incDraw <= INC
      modifies this`seqNo, this`inc
      ensures seqNo == seqDraw && inc == MIN_INC + incDraw
    {
      seqNo := seqDraw;
      inc := MIN_INC + incDraw;
    }

    /** The draws are used only when the sequence number runs out. */
    method Next(tokenBytes: seq<Byte>, seqDraw: nat, incDraw: nat) returns (id: array<Byte>)
      requires Valid()
      requires |tokenBytes| == PREFIX_LENGTH && seqDraw <= MAX_SEQ && incDraw <= INC
      modifies this
      ensures Valid() && fresh(id) && id != prefix
      ensures id.Length == PREFIX_LENGTH + SEQ_LENGTH && AllDigits(id[..])
      ensures id[..] == Id(prefix[..], seqNo) && Decode(id[PREFIX_LENGTH..]) == seqNo % MAX_SEQ
      ensures old(seqNo) + old(inc) < MAX_SEQ ==>
                prefix == old(prefix) && prefix[..] == old(prefix[..]) && inc == old(inc) &&
                seqNo == old(seqNo) + old(inc) && issued == old(issued) + [id[..]]
      ensures old(seqNo) + old(inc) >= MAX_SEQ ==>
                fresh(prefix) && seqNo == seqDraw && inc == MIN_INC + incDraw && issued == [id[..]]
    {
      seqNo := seqNo + inc;
      if seqNo >= MAX_SEQ {
        RandomizePrefix(tokenBytes);
        ResetSequential(seqDraw, incDraw);
      }
      var suffix := WriteSuffix(seqNo);
      id := Extend(prefix, suffix);
      EpochExtends(issued, prefix[..], if issued == [] then 0 else seqNo - inc, seqNo);
      issued := issued + [id[..]];
    }

    /** A copy of the prefix, so that the stored one keeps its length, followed by the suffix. */
    static method Extend(prefix: array<Byte>, suffix: array<Byte>) returns (id: array<Byte>)
      ensures fresh(id) && id[..] == prefix[..] + suffix[..]
    {
      id := new Byte[prefix.Length + suffix.Length];
      forall i | 0 <= i < prefix.Length {
        id[i] := prefix[i];
      }
      forall i | 0 <= i < suffix.Length {
        id[prefix.Length + i] := suffix[i];
      }
    }

    /** The loop of `next` that fills the suffix from its last byte to its first. */
    static method WriteSuffix(n: nat) returns (suffix: array<Byte>)
      ensures fresh(suffix) && suffix[..] == Suffix(n, SEQ_LENGTH)
    {
      suffix := new Byte[SEQ_LENGTH];
      var lSeq: nat := n;
      for i := SEQ_LENGTH downto 0
        invariant 0 <= i <= SEQ_LENGTH
        invariant Suffix(n, SEQ_LENGTH) == Suffix(lSeq, i) + suffix[i..]
      {
        suffix[i] := Digit(lSeq % BASE);
        lSeq := lSeq / BASE;
        assert suffix[i..] == [suffix[i]] + suffix[i + 1..];
      }
      assert suffix[0..] == suffix[..];
    }
  }
}

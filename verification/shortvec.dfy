/** Solana's compact-u16 ("shortvec") integers: a little-endian base-128 number
    of at most three bytes, the high bit of a byte meaning "another one follows". */
module ShortVec {
  import opened Bits
  import opened Wrappers

  type Bytes = seq<byte>

  const U16_MAX: nat := 65535

  predicate Continues(b: byte) { 128 <= b }

  function Digit(b: byte): (d: nat)
    ensures d < 128
  {
    b % 128
  }

  /** The value of a little-endian base-128 numeral, continuation bits ignored. */
  function Base128(bytes: Bytes): nat {
    if bytes == [] then 0 else Digit(bytes[0]) + 128 * Base128(bytes[1..])
  }

  /** `n` bytes form one numeral: the last one alone lacks the continuation bit. */
  ghost predicate Numeral(bytes: Bytes, n: nat) {
    && 1 <= n <= 3 && n <= |bytes|
    && !Continues(bytes[n - 1])
    && forall i :: 0 <= i < n - 1 ==> Continues(bytes[i])
  }

  /** The first `i` bytes all announce another one. */
  ghost predicate AllContinue(bytes: Bytes, i: nat) {
    i <= |bytes| && forall j :: 0 <= j < i ==> Continues(bytes[j])
  }

  /** The decoder as a function: value and number of bytes consumed. */
  function Decode(bytes: Bytes): (r: Option<(nat, nat)>)
    ensures r.Some? ==> 1 <= r.value.1 <= 3 && r.value.1 <= |bytes| && r.value.0 <= U16_MAX
  {
    DecodeFrom(bytes, 0)
  }

  function DecodeFrom(bytes: Bytes, i: nat): (r: Option<(nat, nat)>)
    ensures r.Some? ==> i < r.value.1 <= 3 && r.value.1 <= |bytes| && r.value.0 <= U16_MAX
    decreases 3 - i
  {
    if i >= 3 || i >= |bytes| then None
    else if !Continues(bytes[i]) then Bounded(bytes, i + 1)
    else DecodeFrom(bytes, i + 1)
  }

  function Bounded(bytes: Bytes, n: nat): (r: Option<(nat, nat)>)
    requires n <= |bytes|
    ensures r == None || (r == Some((Base128(bytes[..n]), n)) && r.value.0 <= U16_MAX)
  {
    var v := Base128(bytes[..n]);
    if v > U16_MAX then None else Some((v, n))
  }

  lemma {:induction false} DecodeFromExact(bytes: Bytes, i: nat, v: nat, n: nat)
    requires AllContinue(bytes, i)
    ensures DecodeFrom(bytes, i) == Some((v, n)) <==>
            i < n && Numeral(bytes, n) && v == Base128(bytes[..n]) && v <= U16_MAX
    decreases 3 - i
  {
    if i < 3 && i < |bytes| && Continues(bytes[i]) {
      DecodeFromExact(bytes, i + 1, v, n);
    }
  }

  /** The decoder accepts exactly the numerals of at most three bytes whose value
      fits in a u16, canonical or not, and returns that value and that length. */
  lemma DecodeExact(bytes: Bytes, v: nat, n: nat)
    ensures Decode(bytes) == Some((v, n)) <==>
            Numeral(bytes, n) && v == Base128(bytes[..n]) && v <= 65535
  {
    DecodeFromExact(bytes, 0, v, n);
  }

  /** Nothing but a terminator among the first three bytes and a sum that fits is needed. */
  lemma DecodeSucceedsIff(bytes: Bytes)
    ensures Decode(bytes).Some? <==>
            exists n: nat :: Numeral(bytes, n) && Base128(bytes[..n]) <= U16_MAX
  {
    if Decode(bytes).Some? {
      DecodeExact(bytes, Decode(bytes).value.0, Decode(bytes).value.1);
    }
    if n: nat :| Numeral(bytes, n) && Base128(bytes[..n]) <= U16_MAX {
      DecodeExact(bytes, Base128(bytes[..n]), n);
    }
  }

  lemma {:induction false} Base128Snoc(bytes: Bytes, b: byte)
    ensures Base128(bytes + [b]) == Base128(bytes) + Shifted(Digit(b), 7 * |bytes|)
  {
    if bytes == [] {
      assert [b][1..] == [];
    } else {
      assert (bytes + [b])[1..] == bytes[1..] + [b];
      Base128Snoc(bytes[1..], b);
      ShiftedBy7(Digit(b), 7 * (|bytes| - 1));
    }
  }

  lemma {:induction false} Base128Bound(bytes: Bytes)
    ensures Base128(bytes) < Pow2(7 * |bytes|)
  {
    if bytes != [] {
      Base128Bound(bytes[1..]);
      Pow2By7(7 * (|bytes| - 1));
    }
  }

  lemma SmallPowers()
    ensures Pow2(7) == 128 && Pow2(14) == 16384 && Pow2(21) == 2097152
  {
    Pow2By7(0);
    Pow2By7(7);
    Pow2By7(14);
  }

  lemma NoWrap(bytes: Bytes)
    requires |bytes| <= 3
    ensures Base128(bytes) < TWO_TO_THE_32
  {
    Base128Bound(bytes);
    SmallPowers();
    assert |bytes| == 0 || |bytes| == 1 || |bytes| == 2 || |bytes| == 3;
  }

  lemma ShiftFits(a: nat, k: nat)
    requires Shifted(a, k) < TWO_TO_THE_32
    ensures Shl32(a, k) == Shifted(a, k)
  {}

  /** One turn of the loop: or-ing the shifted digit in extends the base-128 sum. */
  lemma AppendDigit(bytes: Bytes, i: nat)
    requires i < 3 && i < |bytes|
    ensures Or(Base128(bytes[..i]), Shl32(Digit(bytes[i]), 7 * i)) == Base128(bytes[..i + 1])
  {
    var b, sum := bytes[i], Base128(bytes[..i]);
    assert Base128(bytes[..i + 1]) == sum + Shifted(Digit(b), 7 * i) by {
      assert bytes[..i] + [b] == bytes[..i + 1];
      Base128Snoc(bytes[..i], b);
    }
    NoWrap(bytes[..i + 1]);
    ShiftFits(Digit(b), 7 * i);
    assert sum < Pow2(7 * i) by {
      Base128Bound(bytes[..i]);
    }
    OrDisjoint(sum, Digit(b), 7 * i);
  }

  /** The shift-and-or loop computes the base-128 sum; no shift ever loses a bit. */
  method ReadShortvec(bytes: Bytes) returns (r: Option<(nat, nat)>)
    ensures r == Decode(bytes)
  {
    var val: nat := 0;
    var shift: nat := 0;
    for i := 0 to 3
      invariant i <= |bytes|
      invariant shift == 7 * i
      invariant Decode(bytes) == DecodeFrom(bytes, i)
      invariant val == Base128(bytes[..i])
    {
      if i >= |bytes| {
        return None;
      }
      var b := bytes[i];
      AppendDigit(bytes, i);
      ByteMasks(b);
      val := Or(val, Shl32(And(b, 0x7f), shift));
      if And(b, 0x80) == 0 {
        if val > U16_MAX {
          return None;
        }
        return Some((val, i + 1));
      }
      shift := shift + 7;
    }
    return None;
  }

  /** The canonical encoding. */
  function Encode(v: nat): (bytes: Bytes)
    requires v <= U16_MAX
    ensures |bytes| == if v < 128 then 1 else if v < 16384 then 2 else 3
  {
    if v < 128 then [v] else [v % 128 + 128] + Encode(v / 128)
  }

  lemma {:induction false} EncodeIsNumeral(v: nat)
    requires v <= U16_MAX
    ensures Numeral(Encode(v), |Encode(v)|) && Base128(Encode(v)) == v
  {
    if v < 128 {
      assert Encode(v)[1..] == [];
    } else {
      EncodeIsNumeral(v / 128);
      assert Encode(v)[1..] == Encode(v / 128);
    }
  }

  /** Decoding the canonical encoding, whatever follows it, gives the value back. */
  lemma RoundTrip(v: nat, rest: Bytes)
    requires v <= 65535
    ensures Decode(Encode(v) + rest) == Some((v, |Encode(v)|))
  {
    EncodeIsNumeral(v);
    var e := Encode(v);
    assert (e + rest)[..|e|] == e;
    assert Numeral(e + rest, |e|);
    DecodeExact(e + rest, v, |e|);
  }

  /** Every accepted spelling of a value is at least as long as the canonical one. */
  lemma CanonicalIsShortest(bytes: Bytes)
    requires Decode(bytes).Some?
    ensures |Encode(Decode(bytes).value.0)| <= Decode(bytes).value.1
  {
    var (v, n) := Decode(bytes).value;
    DecodeExact(bytes, v, n);
    Base128Bound(bytes[..n]);
    SmallPowers();
    assert 7 * n == 7 || 7 * n == 14 || 7 * n == 21;
  }

  /** The decoder is not injective: a padded zero is accepted. */
  lemma NonCanonicalAccepted()
    ensures Decode([0x80, 0x00]) == Some((0, 2)) && Decode([0x00]) == Some((0, 1))
  {
    var p: Bytes := [0x80, 0x00];
    var q: Bytes := [0x00];
    assert p[..2] == p && p[1..] == [0x00] && p[1..][1..] == [];
    assert q[..1] == q && q[1..] == [];
  }

  /** Bytes after the numeral are never looked at, and all of the numeral is needed. */
  lemma DecodePrefix(bytes: Bytes, rest: Bytes)
    ensures Decode(bytes).Some? ==> Decode(bytes + rest) == Decode(bytes)
    ensures Decode(bytes + rest).Some? && Decode(bytes + rest).value.1 > |bytes| ==> Decode(bytes) == None
    ensures Decode(bytes + rest).Some? && Decode(bytes + rest).value.1 <= |bytes| ==>
              Decode(bytes) == Decode(bytes + rest)
  {
    var whole := bytes + rest;
    if Decode(bytes).Some? {
      var (v, n) := Decode(bytes).value;
      DecodeExact(bytes, v, n);
      assert whole[..n] == bytes[..n];
      DecodeExact(whole, v, n);
    }
    if Decode(whole).Some? && Decode(whole).value.1 <= |bytes| {
      var (v, n) := Decode(whole).value;
      DecodeExact(whole, v, n);
      assert whole[..n] == bytes[..n];
      DecodeExact(bytes, v, n);
    }
  }
}

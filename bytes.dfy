/**
 * The variable-length byte-string column of a vector: all values are stored
 * back to back in `Data`; value `i` starts at offset `Os[i]` and is `Ns[i]`
 * bytes long. Offsets and lengths are 32-bit unsigned integers, and
 * `Append` computes them with 32-bit wrap-around, as the code does.
 */
module VectorBytes {
  import opened Seqs

  newtype byte = x: int | 0 <= x < 0x100
  newtype u32 = x: int | 0 <= x < 0x1_0000_0000

  const U32_RANGE: int := 0x1_0000_0000
  const SPACE: byte := 32         // ' '
  const OPEN_BRACKET: byte := 91  // '['
  const CLOSE_BRACKET: byte := 93 // ']'

  /** Every (offset, length) pair lies inside `data`. */
  predicate WellFormed(data: seq<byte>, os: seq<u32>, ns: seq<u32>)
  {
    |os| == |ns| && forall i :: 0 <= i < |os| ==> os[i] as int + ns[i] as int <= |data|
  }

  /** The values that `os` and `ns` select from `data`, in order. */
  function Decode(data: seq<byte>, os: seq<u32>, ns: seq<u32>): (r: seq<seq<byte>>)
    requires WellFormed(data, os, ns)
    ensures |r| == |os|
  {
    seq(|os|, i requires 0 <= i < |os| && WellFormed(data, os, ns) => data[os[i]..os[i] as int + ns[i] as int])
  }

  /** The values one after another. */
  function Flatten(vs: seq<seq<byte>>): (r: seq<byte>)
  {
    if |vs| == 0 then [] else Flatten(vs[..|vs| - 1]) + vs[|vs| - 1]
  }

  /** The 32-bit offsets `Append` gives `vs` when the data held `base` bytes before. */
  function OffsetsFrom(base: nat, vs: seq<seq<byte>>): (r: seq<u32>)
    ensures |r| == |vs|
  {
    seq(|vs|, j requires 0 <= j < |vs| => ((base + |Flatten(vs[..j])|) % U32_RANGE) as u32)
  }

  /** The 32-bit lengths `Append` records for `vs`. */
  function Lengths(vs: seq<seq<byte>>): (r: seq<u32>)
    ensures |r| == |vs|
  {
    seq(|vs|, j requires 0 <= j < |vs| => (|vs[j]| % U32_RANGE) as u32)
  }

  /** A prefix of the values flattens to a prefix of the flattening. */
  lemma {:induction false} FlattenPrefix(vs: seq<seq<byte>>, k: nat)
    requires k <= |vs|
    ensures Flatten(vs) == Flatten(vs[..k]) + Flatten(vs[k..])
    decreases |vs|
  {
    if k < |vs| {
      var init := vs[..|vs| - 1];
      assert init[..k] == vs[..k];
      FlattenPrefix(init, k);
      assert vs[k..] == init[k..] + [vs[|vs| - 1]];
      assert vs[k..][..|vs[k..]| - 1] == init[k..];
    } else {
      assert vs[..k] == vs;
      assert vs[k..] == [];
    }
  }

  /** Value `j` sits in the flattening right after the values before it. */
  lemma FlattenAt(vs: seq<seq<byte>>, j: nat)
    requires j < |vs|
    ensures |Flatten(vs[..j])| + |vs[j]| <= |Flatten(vs)|
    ensures Flatten(vs)[|Flatten(vs[..j])|..|Flatten(vs[..j])| + |vs[j]|] == vs[j]
  {
    FlattenPrefix(vs, j + 1);
    assert vs[..j + 1][..j] == vs[..j];
  }

  /**
   * Without wrap-around, the offset and length `Append` records for value
   * `j` select exactly that value from the extended data.
   */
  lemma AppendedSlot(data: seq<byte>, vs: seq<seq<byte>>, j: nat)
    requires j < |vs|
    requires |data| + |Flatten(vs)| < U32_RANGE
    ensures OffsetsFrom(|data|, vs)[j] as int == |data| + |Flatten(vs[..j])|
    ensures Lengths(vs)[j] as int == |vs[j]|
    ensures |data| + |Flatten(vs[..j])| + |vs[j]| <= |data + Flatten(vs)|
    ensures (data + Flatten(vs))[|data| + |Flatten(vs[..j])|..|data| + |Flatten(vs[..j])| + |vs[j]|] == vs[j]
  {
    FlattenAt(vs, j);
    var lo := |Flatten(vs[..j])|;
    assert (data + Flatten(vs))[|data| + lo..|data| + lo + |vs[j]|] == Flatten(vs)[lo..lo + |vs[j]|];
  }

  /**
   * Appending the values `vs` the way `Append` does, when no offset wraps
   * around, extends the decoded values by exactly `vs`.
   */
  lemma DecodeAppend(data: seq<byte>, os: seq<u32>, ns: seq<u32>, vs: seq<seq<byte>>)
    requires WellFormed(data, os, ns)
    requires |data| + |Flatten(vs)| < U32_RANGE
    ensures WellFormed(data + Flatten(vs), os + OffsetsFrom(|data|, vs), ns + Lengths(vs))
    ensures Decode(data + Flatten(vs), os + OffsetsFrom(|data|, vs), ns + Lengths(vs)) == Decode(data, os, ns) + vs
  {
    var data' := data + Flatten(vs);
    var os' := os + OffsetsFrom(|data|, vs);
    var ns' := ns + Lengths(vs);
    forall i | |os| <= i < |os'| ensures os'[i] as int + ns'[i] as int <= |data'| {
      NewSlot(data, os, ns, vs, i);
    }
    assert WellFormed(data', os', ns');
    var r := Decode(data', os', ns');
    var e := Decode(data, os, ns) + vs;
    forall i | 0 <= i < |r| ensures r[i] == e[i] {
      if i < |os| {
        assert data'[os[i]..os[i] as int + ns[i] as int] == data[os[i]..os[i] as int + ns[i] as int];
      } else {
        NewSlot(data, os, ns, vs, i);
      }
    }
  }

  /** Slot `i` of the extended offsets and lengths is a slot `Append` added. */
  lemma NewSlot(data: seq<byte>, os: seq<u32>, ns: seq<u32>, vs: seq<seq<byte>>, i: nat)
    requires |os| == |ns| && |os| <= i < |os| + |vs|
    requires |data| + |Flatten(vs)| < U32_RANGE
    ensures (os + OffsetsFrom(|data|, vs))[i] as int + (ns + Lengths(vs))[i] as int <= |data + Flatten(vs)|
    ensures (data + Flatten(vs))[(os + OffsetsFrom(|data|, vs))[i]..(os + OffsetsFrom(|data|, vs))[i] as int + (ns + Lengths(vs))[i] as int] == vs[i - |os|]
  {
    AppendedSlot(data, vs, i - |os|);
  }

  /** Adding in 32-bit arithmetic agrees with adding and then wrapping. */
  lemma WrappingAdd(a: nat, b: nat)
    ensures ((a % U32_RANGE) + (b % U32_RANGE)) % U32_RANGE == (a + b) % U32_RANGE
  {
    var qa, qb := a / U32_RANGE, b / U32_RANGE;
    assert a == qa * U32_RANGE + a % U32_RANGE;
    assert b == qb * U32_RANGE + b % U32_RANGE;
    assert a + b == (qa + qb) * U32_RANGE + (a % U32_RANGE + b % U32_RANGE);
  }

  /** One more value of `Append`'s loop: the offset, length and data it adds. */
  lemma AppendStep(base: nat, vs: seq<seq<byte>>, i: nat)
    requires i < |vs|
    ensures Flatten(vs[..i + 1]) == Flatten(vs[..i]) + vs[i]
    ensures OffsetsFrom(base, vs)[..i + 1] == OffsetsFrom(base, vs)[..i] + [((base + |Flatten(vs[..i])|) % U32_RANGE) as u32]
    ensures Lengths(vs)[..i + 1] == Lengths(vs)[..i] + [(|vs[i]| % U32_RANGE) as u32]
  {
    assert vs[..i + 1][..i] == vs[..i];
  }

  /** `[`, the values separated by single spaces, `]`: what `String` renders. */
  function Render(vs: seq<seq<byte>>): seq<byte>
  {
    [OPEN_BRACKET] + Join(vs, [SPACE]) + [CLOSE_BRACKET]
  }

  /**
   * A rendering can be read back: between the brackets, splitting at the
   * spaces gives the values, provided there is at least one value and no
   * value holds a space.
   */
  lemma RenderRoundTrip(vs: seq<seq<byte>>)
    requires |vs| > 0
    requires forall k :: 0 <= k < |vs| ==> SPACE !in vs[k]
    ensures |Render(vs)| >= 2
    ensures Split(Render(vs)[1..|Render(vs)| - 1], [SPACE]) == vs
  {
    var r := Render(vs);
    assert r[1..|r| - 1] == Join(vs, [SPACE]);
    SplitJoinSingle(vs, SPACE);
  }

  /** The rendering so far, after value `i` is written. */
  lemma RenderStep(vs: seq<seq<byte>>, i: nat)
    requires i < |vs|
    ensures [OPEN_BRACKET] + Join(vs[..i], [SPACE]) + (if 0 < i then [SPACE] else []) + vs[i] == [OPEN_BRACKET] + Join(vs[..i + 1], [SPACE])
  {
    assert vs[..i + 1] == vs[..i] + [vs[i]];
    if i > 0 {
      JoinSnoc(vs[..i], vs[i], [SPACE]);
    }
  }

  /** No values render as `[]`. */
  lemma RenderEmpty()
    ensures Render([]) == [OPEN_BRACKET, CLOSE_BRACKET]
  {
  }

  /** The byte-string column: the concatenated data, offsets and lengths. */
  class Bytes {
    var Data: seq<byte>
    var Os: seq<u32>
    var Ns: seq<u32>

    ghost predicate Valid()
      reads this
    {
      WellFormed(Data, Os, Ns)
    }

    /** The values the column holds. */
    function Values(): (r: seq<seq<byte>>)
      reads this
      requires Valid()
      ensures |r| == |Os|
    {
      Decode(Data, Os, Ns)
    }

    /** An empty column. */
    constructor ()
      ensures Valid()
      ensures Data == [] && Os == [] && Ns == []
      ensures Values() == []
    {
      Data, Os, Ns := [], [], [];
    }

    /** Empties the column (the code keeps the capacity, which is not modelled). */
    method Reset()
      modifies this
      ensures Valid()
      ensures Data == [] && Os == [] && Ns == []
      ensures Values() == []
    {
      Os := Os[..0];
      Ns := Ns[..0];
      Data := Data[..0];
    }

    /**
     * Appends the values `vs`: each one's bytes go at the end of `Data`, its
     * 32-bit offset and length at the end of `Os` and `Ns`. The code always
     * returns a nil error. When the data stays below 4 GiB, the column then
     * holds the old values followed by `vs`.
     */
    method Append(vs: seq<seq<byte>>)
      modifies this
      ensures Data == old(Data) + Flatten(vs)
      ensures Os == old(Os) + OffsetsFrom(|old(Data)|, vs)
      ensures Ns == old(Ns) + Lengths(vs)
      ensures old(Valid()) && |old(Data)| + |Flatten(vs)| < U32_RANGE ==> Valid() && Values() == old(Values()) + vs
    {
      ghost var data0, os0, ns0 := Data, Os, Ns;
      var o: u32 := (|Data| % U32_RANGE) as u32;
      for i := 0 to |vs|
        invariant Data == data0 + Flatten(vs[..i])
        invariant Os == os0 + OffsetsFrom(|data0|, vs)[..i]
        invariant Ns == ns0 + Lengths(vs)[..i]
        invariant o as int == (|data0| + |Flatten(vs[..i])|) % U32_RANGE
      {
        var v := vs[i];
        AppendStep(|data0|, vs, i);
        WrappingAdd(|data0| + |Flatten(vs[..i])|, |v|);
        Os := Os + [o];
        Data := Data + v;
        o := ((o as int + |v| % U32_RANGE) % U32_RANGE) as u32;
        Ns := Ns + [(|v| % U32_RANGE) as u32];
      }
      assert vs[..|vs|] == vs;
      if WellFormed(data0, os0, ns0) && |data0| + |Flatten(vs)| < U32_RANGE {
        DecodeAppend(data0, os0, ns0, vs);
      }
    }

    /**
     * A new column for the values `start` to `end`: it takes a copy of the
     * data and that range of the offsets and lengths.
     */
    method Window(start: nat, end: nat) returns (w: Bytes)
      requires start <= end <= |Os| && end <= |Ns|
      ensures fresh(w)
      ensures w.Data == Data && w.Os == Os[start..end] && w.Ns == Ns[start..end]
      ensures Valid() ==> w.Valid() && w.Values() == Values()[start..end]
    {
      w := new Bytes();
      w.Data := Data;
      w.Os := Os[start..end];
      w.Ns := Ns[start..end];
    }

    /** The values in brackets, separated by spaces. */
    method String() returns (s: seq<byte>)
      requires Valid()
      ensures s == Render(Values())
    {
      ghost var vs := Values();
      var buf: seq<byte> := [OPEN_BRACKET];
      var j := |Os| - 1;
      for i := 0 to |Os|
        invariant buf == [OPEN_BRACKET] + Join(vs[..i], [SPACE]) + (if 0 < i < |Os| then [SPACE] else [])
      {
        var v := Data[Os[i]..Os[i] as int + Ns[i] as int];
        assert v == vs[i];
        RenderStep(vs, i);
        buf := buf + v;
        if i != j {
          buf := buf + [SPACE];
        }
      }
      assert vs[..|Os|] == vs;
      buf := buf + [CLOSE_BRACKET];
      s := buf;
    }

    /** Every value as its own string, in order. */
    method ToStrings() returns (rs: array<seq<byte>>)
      requires Valid()
      ensures fresh(rs)
      ensures rs[..] == Values()
    {
      rs := new seq<byte>[|Os|];
      for i := 0 to |Os|
        invariant forall k :: 0 <= k < i ==> rs[k] == Values()[k]
      {
        rs[i] := Data[Os[i]..Os[i] as int + Ns[i] as int];
      }
    }
  }
}

/**
 The `notemap` class: a 128-bit bitmap of held keys, stored as 16 bytes, with a
 one-byte count of keys that the mutators adjust unconditionally.

 `MapValue` is the abstract value of a notemap (the set of keys whose bit is set,
 and the cached count). The class ties its bytes to that value; the tracker and
 its lemmas reason about the value alone.
 */
module NoteMaps {
  import opened Keys

  /** Keys whose bit is set, and the cached `numKeys` byte. */
  datatype MapValue = MapValue(held: set<Key>, count: Byte)

  const EmptyMap := MapValue({}, 0)

  /** What `setBit(k)` does to a map's value: the bit is set and the count goes up by one, modulo 256. */
  function WithKey(m: MapValue, k: Key): (r: MapValue)
    ensures k in r.held && forall j: Key :: j != k ==> (j in r.held <==> j in m.held)
    ensures r.count as int == (m.count as int + 1) % 256
  {
    MapValue(m.held + {k}, Inc(m.count))
  }

  /** What `clearBit(k)` does to a map's value: the bit is cleared and the count goes down by one, modulo 256. */
  function WithoutKey(m: MapValue, k: Key): (r: MapValue)
    ensures k !in r.held && forall j: Key :: j != k ==> (j in r.held <==> j in m.held)
    ensures r.count as int == (m.count as int - 1) % 256
  {
    MapValue(m.held - {k}, Dec(m.count))
  }

  /** The cached count equals the number of set bits. */
  predicate CountExact(m: MapValue)
  {
    m.count as int == |m.held|
  }

  /** Reference for `getLowest`: the first held key at or above `from`, or 0 when there is none. */
  function LowestFrom(held: set<Key>, from: nat): (r: Key)
    ensures r == 0 || (r in held && from <= r)
    decreases 128 - from
  {
    if from >= 128 then 0
    else if from in held then from
    else LowestFrom(held, from + 1)
  }

  /** `getLowest` on a map holding `held`: a held key, or 0. */
  function Lowest(held: set<Key>): (r: Key)
    ensures r == 0 || r in held
  {
    LowestFrom(held, 0)
  }

  lemma {:induction false} LowestFromIsLeast(held: set<Key>, from: nat)
    ensures (forall k :: k in held ==> k < from) ==> LowestFrom(held, from) == 0
    ensures (exists k :: k in held && from <= k) ==>
              LowestFrom(held, from) in held && from <= LowestFrom(held, from) &&
              forall k :: k in held && from <= k ==> LowestFrom(held, from) <= k
    decreases 128 - from
  {
    if from < 128 && from !in held {
      LowestFromIsLeast(held, from + 1);
      assert forall k :: k in held && from <= k ==> from + 1 <= k;
    }
  }

  /**
   `getLowest` gives low-note priority: the smallest held key, or 0 when no key is held
   (which callers cannot tell apart from a held key 0).
   */
  lemma LowestIsLeast(held: set<Key>)
    ensures held == {} ==> Lowest(held) == 0
    ensures held != {} ==> Lowest(held) in held && forall k :: k in held ==> Lowest(held) <= k
  {
    LowestFromIsLeast(held, 0);
    if held != {} {
      var k :| k in held;
      assert 0 <= k;
    }
  }

  /** The least held key determines `Lowest`. */
  lemma LowestIsUnique(held: set<Key>, r: Key)
    requires r in held && forall k :: k in held ==> r <= k
    ensures Lowest(held) == r
  {
    LowestIsLeast(held);
  }

  lemma {:induction false} KeysBelowAtMost(held: set<Key>, n: nat)
    requires n <= 128
    ensures |set k | k in held && k < n| <= n
  {
    if n > 0 {
      KeysBelowAtMost(held, n - 1);
      var top: Key := n - 1;
      var below := set k | k in held && k < n - 1;
      var upto := set k | k in held && k < n;
      if top in held {
        assert upto == below + {top};
      } else {
        assert upto == below;
      }
    }
  }

  /** A map holds at most 128 keys: 16 bytes of 8 bits. */
  lemma HeldAtMost128(held: set<Key>)
    ensures |held| <= 128
  {
    KeysBelowAtMost(held, 128);
    assert (set k | k in held && k < 128) == held;
  }

  /** `setBit` on a key whose bit is clear keeps the count exact. */
  lemma WithKeyKeepsCount(m: MapValue, k: Key)
    requires CountExact(m) && k !in m.held
    ensures CountExact(WithKey(m, k))
  {
    HeldAtMost128(m.held);
  }

  /** `clearBit` on a key whose bit is set keeps the count exact. */
  lemma WithoutKeyKeepsCount(m: MapValue, k: Key)
    requires CountExact(m) && k in m.held
    ensures CountExact(WithoutKey(m, k))
  {
  }

  /** `setBit` on a key whose bit is already set leaves the bits alone but still bumps the count. */
  lemma WithKeyTwiceDrifts(m: MapValue, k: Key)
    requires CountExact(m) && k in m.held
    ensures WithKey(m, k).held == m.held && !CountExact(WithKey(m, k))
  {
    HeldAtMost128(m.held);
  }

  /** `clearBit` on a key whose bit is clear leaves the bits alone but still drops the count. */
  lemma WithoutKeyTwiceDrifts(m: MapValue, k: Key)
    requires CountExact(m) && k !in m.held
    ensures WithoutKey(m, k).held == m.held && !CountExact(WithoutKey(m, k))
  {
    HeldAtMost128(m.held);
  }

  class NoteMap {
    /** `keys[16]`: bit `k % 8` of byte `k / 8` is set while key `k` is held. */
    const keys: array<bv8>
    /** `numKeys`: the cached count, a byte. */
    var numKeys: Byte
    /** The keys whose bit is set. */
    ghost var held: set<Key>

    ghost predicate Valid()
      reads this, keys
    {
      keys.Length == MapBytes &&
      forall k: Key :: k in held <==> HasBit(keys[k / 8], k % 8)
    }

    ghost function Value(): MapValue
      reads this
    {
      MapValue(held, numKeys)
    }

    /** Lemma form of `Valid` for one key, so that callers need not instantiate the quantifier. */
    lemma BitOf(k: Key)
      requires Valid()
      ensures k in held <==> HasBit(keys[k / 8], k % 8)
    {
    }

    /** An empty map: all 16 bytes and the count are zero. */
    constructor ()
      ensures Valid() && fresh(keys)
      ensures Value() == EmptyMap
      ensures forall i :: 0 <= i < MapBytes ==> keys[i] == 0
    {
      keys := new bv8[MapBytes];
      numKeys := 0;
      held := {};
      new;
      var i := 0;
      while i < MapBytes
        invariant 0 <= i <= MapBytes
        invariant forall j :: 0 <= j < i ==> keys[j] == 0
        invariant held == {} && numKeys == 0
      {
        keys[i] := 0;
        i := i + 1;
      }
      forall k: Key ensures !HasBit(keys[k / 8], k % 8) {
        ZeroHasNoBit(k % 8);
      }
    }

    /** Sets bit `note % 8` of byte `note / 8` and increments the count, whether or not the bit was set. */
    method SetBit(note: Key)
      requires Valid()
      modifies this, keys
      ensures Valid()
      ensures Value() == WithKey(old(Value()), note)
      ensures keys[note / 8] == WithBit(old(keys[note / 8]), note % 8)
      ensures forall i :: 0 <= i < MapBytes && i != note / 8 ==> keys[i] == old(keys[i])
    {
      var idx := note / 8;
      var pos := note % 8;
      keys[idx] := WithBit(keys[idx], pos);
      numKeys := Inc(numKeys);
      held := held + {note};
      forall k: Key ensures k in held <==> HasBit(keys[k / 8], k % 8) {
        KeyPosition(k, note);
        if k / 8 == idx {
          SetBitEffect(old(keys[idx]), pos, k % 8);
        }
      }
    }

    /** Clears bit `note % 8` of byte `note / 8` and decrements the count, whether or not the bit was set. */
    method ClearBit(note: Key)
      requires Valid()
      modifies this, keys
      ensures Valid()
      ensures Value() == WithoutKey(old(Value()), note)
      ensures keys[note / 8] == WithoutBit(old(keys[note / 8]), note % 8)
      ensures forall i :: 0 <= i < MapBytes && i != note / 8 ==> keys[i] == old(keys[i])
    {
      var idx := note / 8;
      var pos := note % 8;
      ghost var before := keys[idx];
      keys[idx] := WithoutBit(keys[idx], pos);
      numKeys := Dec(numKeys);
      held := held - {note};
      forall k: Key ensures k in held <==> HasBit(keys[k / 8], k % 8) {
        KeyPosition(k, note);
        if k / 8 == idx {
          ClearBitEffect(before, pos, k % 8);
        }
      }
    }

    /** Zeroes all 16 bytes and the count. */
    method ClearAll()
      requires Valid()
      modifies this, keys
      ensures Valid()
      ensures Value() == EmptyMap
      ensures forall i :: 0 <= i < MapBytes ==> keys[i] == 0
    {
      var i := 0;
      while i < MapBytes
        invariant 0 <= i <= MapBytes
        invariant forall j :: 0 <= j < i ==> keys[j] == 0
      {
        keys[i] := 0;
        i := i + 1;
      }
      numKeys := 0;
      held := {};
      forall k: Key ensures !HasBit(keys[k / 8], k % 8) {
        ZeroHasNoBit(k % 8);
      }
    }

    /**
     The implicit copy assignment `this = other`: every byte and the count are copied
     into this map's own array; no storage is shared.
     */
    method CopyFrom(other: NoteMap)
      requires Valid() && other.Valid()
      requires other != this && other.keys != keys
      modifies this, keys
      ensures Valid()
      ensures Value() == other.Value()
      ensures keys[..] == other.keys[..]
    {
      var i := 0;
      while i < MapBytes
        invariant 0 <= i <= MapBytes
        invariant forall j :: 0 <= j < i ==> keys[j] == other.keys[j]
      {
        keys[i] := other.keys[i];
        i := i + 1;
      }
      numKeys := other.numKeys;
      held := other.held;
      forall k: Key ensures k in held <==> HasBit(keys[k / 8], k % 8) {
        other.BitOf(k);
      }
    }

    /** `isBitSet`: whether key `note` is held. */
    function IsBitSet(note: Key): (b: bool)
      reads this, keys
      requires Valid()
      ensures b <==> note in held
    {
      HasBit(keys[note / 8], note % 8)
    }

    /** `getNumBits`: the cached count, which is the population only while it has been kept exact. */
    function GetNumBits(): (n: Byte)
      reads this
      ensures n == Value().count
      ensures CountExact(Value()) ==> n as int == |held|
    {
      numKeys
    }

    /**
     `getLowest`: scans the bytes from the bottom and, in the first non-zero byte, the
     bits from the bottom; returns the first held key, or 0 when none is held.
     */
    method GetLowest() returns (r: Key)
      requires Valid()
      ensures r == Lowest(held)
      ensures held == {} ==> r == 0
      ensures held != {} ==> r in held && forall k :: k in held ==> r <= k
    {
      var i := 0;
      while i < MapBytes
        invariant 0 <= i <= MapBytes
        invariant forall k: Key :: k < 8 * i ==> k !in held
      {
        if keys[i] != 0 {
          var j: bv8 := 1;
          var k := 0;
          while k < 8
            invariant 0 <= k <= 8
            invariant k < 8 ==> j == Mask(k)
            invariant forall q :: 0 <= q < k ==> !HasBit(keys[i], q)
          {
            if keys[i] & j != 0 {
              r := i * 8 + k;
              assert r / 8 == i && r % 8 == k;
              forall k': Key | k' < r ensures k' !in held {
                BitOf(k');
              }
              LowestIsUnique(held, r);
              return;
            }
            j := j << 1;
            k := k + 1;
          }
        }
        forall k: Key | k < 8 * (i + 1) ensures k !in held {
          BitOf(k);
          if 8 * i <= k {
            assert k / 8 == i;
            if keys[i] == 0 {
              ZeroHasNoBit(k % 8);
            }
          }
        }
        i := i + 1;
      }
      r := 0;
      assert held == {} by {
        forall k: Key ensures k !in held {
        }
      }
      LowestIsLeast(held);
    }
  }
}

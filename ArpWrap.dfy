/**
 The wraparound arithmetic of `getNext` exactly as the firmware writes it:
 `for (uint8_t key = start+step; key != start; key = (key+step)%128)`.

 The first probe `start+step` is stored in a `uint8_t` without reduction modulo
 128, and C's `%` keeps the sign of the dividend, so `(0 + -1) % 128` is -1,
 which the `uint8_t` turns into 255. Keys 128..255 lie outside the 16-byte map;
 the firmware reads past `keys[16]` for them, which this model replaces by
 "not held". The model of the tracker uses the intended reduction modulo 128
 (`TrackerSpec.Probe`); the lemmas below show where the two part ways.
 */
module ArpWrap {
  import opened Keys
  import opened NoteMaps
  import opened TrackerSpec

  /** Storing an `int` into a `uint8_t`: the value modulo 256. */
  function ToUint8(x: int): (r: int)
    ensures 0 <= r < 256
    ensures 0 <= x < 256 ==> r == x
    ensures -256 <= x < 0 ==> r == x + 256
  {
    x % 256
  }

  /** C's `%`: the remainder has the sign of the dividend. */
  function CRem(a: int, n: int): (r: int)
    requires n > 0
    ensures a >= 0 ==> r == a % n
    ensures -n < a < 0 ==> r == a
  {
    if a >= 0 then a % n else -((-a) % n)
  }

  /** `isBitSet` on a probed key, with keys outside 0..127 taken as not held. */
  function WrittenHeld(held: set<Key>, key: int): (r: bool)
    ensures key >= 128 || key < 0 ==> !r
    ensures 0 <= key < 128 ==> (r <==> key in held)
  {
    0 <= key < 128 && key in held
  }

  /** The key the loop examines on its `n`-th pass (from 0), as written. */
  function WrittenProbe(start: Key, step: int, n: nat): (key: int)
    ensures 0 <= key < 256
  {
    if n == 0 then ToUint8(start + step)
    else ToUint8(CRem(WrittenProbe(start, step, n - 1) + step, 128))
  }

  lemma {:induction false} UpFrom127Probes(n: nat)
    requires 1 <= n <= 127
    ensures WrittenProbe(127, 1, n) == n
  {
    if n > 1 {
      UpFrom127Probes(n - 1);
    }
  }

  /**
   In `ARP_UP` from key 127 the loop first examines 128, outside the map, then 1 to 126,
   and stops when it is back at 127: key 0 is never examined.
   */
  lemma UpFrom127SkipsZero()
    ensures WrittenProbe(127, 1, 0) == 128
    ensures forall n :: 0 <= n < 127 ==> WrittenProbe(127, 1, n) != 0 && WrittenProbe(127, 1, n) != 127
    ensures WrittenProbe(127, 1, 127) == 127
  {
    forall n | 1 <= n <= 127
      ensures WrittenProbe(127, 1, n) == n
    {
      UpFrom127Probes(n);
    }
  }

  lemma {:induction false} DownProbesBelow127(start: Key, n: nat)
    ensures WrittenProbe(start, -1, n) <= 126 || WrittenProbe(start, -1, n) == 255
  {
    if n > 0 {
      DownProbesBelow127(start, n - 1);
    }
  }

  /**
   In `ARP_DN` the loop never examines key 127: below 0 it examines 255, outside the map,
   and then jumps to 126. From `start == 127` it therefore never comes back to `start`.
   */
  lemma DownNeverProbes127(start: Key, n: nat)
    ensures WrittenProbe(start, -1, n) != 127
  {
    DownProbesBelow127(start, n);
  }

  /** From `start` the loop as written counts down to 0, examines 255, then counts down from 126. */
  lemma {:induction false} DownProbes(start: Key, n: nat)
    requires n <= 127
    ensures n < start ==> WrittenProbe(start, -1, n) == start - 1 - n
    ensures n == start ==> WrittenProbe(start, -1, n) == 255
    ensures start < n ==> WrittenProbe(start, -1, n) == 127 + start - n
  {
    if n > 0 {
      DownProbes(start, n - 1);
      var p := WrittenProbe(start, -1, n - 1);
      assert WrittenProbe(start, -1, n) == ToUint8(CRem(p - 1, 128));
      if n - 1 < start {
        assert p - 1 == start - 1 - n;
      } else if n - 1 == start {
        assert CRem(p - 1, 128) == 126;
      }
    }
  }

  /**
   How the loop as written ends: `return key` at a held probe, `return start` once the probe
   is back at `start`, or `NoExit` when neither has happened within 256 passes.
   */
  datatype Exit = Returns(key: int) | NoExit

  /** The loop as written, from its `n`-th pass on. */
  function WrittenNextFrom(held: set<Key>, start: Key, step: int, n: nat): (r: Exit)
    ensures r.Returns? ==> r.key == start || WrittenHeld(held, r.key)
    ensures r.Returns? ==> exists j :: n <= j && WrittenProbe(start, step, j) == r.key
    decreases 256 - n
  {
    var key := WrittenProbe(start, step, n);
    if key == start then assert WrittenProbe(start, step, n) == start; Returns(start)
    else if WrittenHeld(held, key) then assert WrittenProbe(start, step, n) == key; Returns(key)
    else if n >= 255 then NoExit
    else WrittenNextFrom(held, start, step, n + 1)
  }

  /** `getNext(start)` as written, for a map holding `held` and the given `step`. */
  function WrittenNext(held: set<Key>, start: Key, step: int): (r: Exit)
    ensures r.Returns? ==> r.key == start || WrittenHeld(held, r.key)
  {
    WrittenNextFrom(held, start, step, 0)
  }

  /**
   In `ARP_UP` from 127 the loop as written meets `r` first when no key in 1..`r`-1 is
   held and `r` is held (or is 127 itself): key 0 does not take part.
   */
  lemma {:induction false} UpFrom127Scan(held: set<Key>, n: nat, r: Key)
    requires 1 <= r && n <= r
    requires r == 127 || r in held
    requires forall j: Key :: 1 <= j < r ==> j !in held
    ensures WrittenNextFrom(held, 127, 1, n) == Returns(r)
    decreases r - n
  {
    if n >= 1 {
      UpFrom127Probes(n);
    }
    if n < r {
      UpFrom127Scan(held, n + 1, r);
    }
  }

  /** In `ARP_DN` with `start` and 127 held, the loop as written comes back to `start`. */
  lemma {:induction false} DownStall(start: Key, n: nat)
    requires 0 < start < 127 && n <= 127
    ensures WrittenNextFrom({start, 127}, start, -1, n) == Returns(start)
    decreases 127 - n
  {
    DownProbes(start, n);
    if n < 127 {
      DownStall(start, n + 1);
    }
  }

  /**
   With keys 0 and 127 held in `ARP_UP` and `last_key` at 127, the loop as written gets back
   to 127 without meeting a held key, so `getNext` returns 127 and the arpeggio stalls; the
   intended scan steps to 0.
   */
  lemma UpWrapCounterexample()
    ensures forall n :: 0 <= n < 127 ==> !WrittenHeld({0, 127}, WrittenProbe(127, 1, n))
    ensures WrittenProbe(127, 1, 127) == 127
    ensures WrittenNext({0, 127}, 127, 1) == Returns(127)
    ensures NextKey({0, 127}, 127, ArpUp) == 0
  {
    UpFrom127SkipsZero();
    UpFrom127Scan({0, 127}, 0, 127);
    NextKeyIsUnique({0, 127}, 127, ArpUp, 0);
  }

  /**
   `ARP_UP` over a chord `0 < mid < 127` with `last_key` at 127: the loop as written skips
   0 and steps to `mid`; the intended scan wraps round to 0.
   */
  lemma UpChordWrap(mid: Key)
    requires 0 < mid < 127
    ensures WrittenNext({0, mid, 127}, 127, 1) == Returns(mid)
    ensures NextKey({0, mid, 127}, 127, ArpUp) == 0
  {
    UpFrom127Scan({0, mid, 127}, 0, mid);
    NextKeyIsUnique({0, mid, 127}, 127, ArpUp, 0);
  }

  /** As written, `ARP_DN` over {`start`, 127} from `start` meets no held key and returns `start`. */
  lemma DownWrapWritten(start: Key)
    requires 0 < start < 127
    ensures forall n :: 0 <= n < 127 ==> !WrittenHeld({start, 127}, WrittenProbe(start, -1, n))
    ensures WrittenProbe(start, -1, 127) == start
    ensures WrittenNext({start, 127}, start, -1) == Returns(start)
  {
    forall n | 0 <= n <= 127
      ensures WrittenProbe(start, -1, n) != start || n == 127
      ensures WrittenProbe(start, -1, n) != 127
    {
      DownProbes(start, n);
    }
    DownProbes(start, 127);
    DownStall(start, 0);
  }

  /** The intended scan from `start` in `ARP_DN` over {`start`, 127} wraps round to 127. */
  lemma DownWrapIntended(start: Key)
    requires 0 < start < 127
    ensures NextKey({start, 127}, start, ArpDown) == 127
  {
    NextKeyIsUnique({start, 127}, start, ArpDown, 127);
  }

  /**
   With key 127 and one key `start` between 1 and 126 held in `ARP_DN`, and `last_key` at
   `start`, the loop as written gets back to `start` without examining 127, so `getNext`
   returns `start` and the arpeggio stalls; the intended scan wraps round to 127.
   */
  lemma DownWrapCounterexample(start: Key)
    requires 0 < start < 127
    ensures forall n :: 0 <= n < 127 ==> !WrittenHeld({start, 127}, WrittenProbe(start, -1, n))
    ensures WrittenProbe(start, -1, 127) == start
    ensures WrittenNext({start, 127}, start, -1) == Returns(start)
    ensures NextKey({start, 127}, start, ArpDown) == 127
  {
    DownWrapWritten(start);
    DownWrapIntended(start);
  }

  /** In `ARP_DN` from 127, with no key but 127 held, the loop as written never exits. */
  lemma {:induction false} DownFrom127NoExit(held: set<Key>, n: nat)
    requires held <= {127} && n <= 255
    ensures WrittenNextFrom(held, 127, -1, n) == NoExit
    decreases 255 - n
  {
    DownNeverProbes127(127, n);
    if n < 255 {
      DownFrom127NoExit(held, n + 1);
    }
  }

  /**
   A reachable hang. In `ARP_DN`, press 127 and poll, so `last_key` latches 127; pedal down,
   release 127 and press it again. The sustain map now holds only 127 but counts 2, so the
   next rising edge calls `getNext(127)`, whose loop as written never probes 127 and never
   finds a held key: it does not exit. The intended scan returns 127.
   */
  lemma DownHang()
    ensures var s := NoteOn(NoteOff(SetSustain(AfterWhichKey(NoteOn(SetMode(Initial, ArpDown), 127)), true), 127), 127);
            s.mode == ArpDown && s.lastKey == 127 &&
            ActiveMap(s).held == {127} && ActiveMap(s).count == 2 &&
            (forall n: nat :: WrittenProbe(127, -1, n) != 127 && !WrittenHeld(ActiveMap(s).held, WrittenProbe(127, -1, n))) &&
            WrittenNext(ActiveMap(s).held, 127, Step(s.mode)) == NoExit &&
            TickArp(s, true).lastKey == 127
  {
    var s := NoteOn(NoteOff(SetSustain(AfterWhichKey(NoteOn(SetMode(Initial, ArpDown), 127)), true), 127), 127);
    var pressed := NoteOn(SetMode(Initial, ArpDown), 127);
    assert ActiveMap(pressed) == MapValue({127}, 1);
    LowestIsUnique({127}, 127);
    assert WhichKey(pressed) == 127;
    forall n: nat
      ensures WrittenProbe(127, -1, n) != 127
    {
      DownNeverProbes127(127, n);
    }
    DownFrom127NoExit({127}, 0);
    NextKeyIsNearest({127}, 127, ArpDown);
  }
}

/**
 Clients of `NoteTracker` that drive a real tracker object through the event
 sequences that the doc comments of notemap.cpp describe, using only the class's
 contracts.
 They show at the level of objects that the sustain map is a copy of the voice
 map (releasing a key while the pedal is down does not reach the sustain map).
 */
module Scenarios {
  import opened Keys
  import opened NoteMaps
  import opened TrackerSpec
  import opened Tracker

  /**
   Low-note priority under sustain: press `a`, pedal down, press `b`, release `a`.
   The tracker still plays `a`; after the pedal is released it plays `b`.
   */
  method SustainScenario(a: Key, b: Key) returns (during: Key, after: Key)
    requires a < b
    ensures during == a && after == b
  {
    var t := new NoteTracker();
    t.NoteOn(a);
    t.SetSustain(true);
    t.NoteOn(b);
    t.NoteOff(a);
    assert t.sustainMap.Value() == MapValue({a, b}, 2);
    LowestIsUnique({a, b}, a);
    during := t.WhichKey();
    t.SetSustain(false);
    assert t.voiceMap.Value() == MapValue({b}, 1);
    LowestIsUnique({b}, b);
    after := t.WhichKey();
  }

  /**
   Setting up `ARP_UP` in staccato and pressing a three-key chord `lo < mid < hi` in that
   order: the first key sounds at once and stays latched while the others are added.
   */
  method PressChord(lo: Key, mid: Key, hi: Key) returns (t: NoteTracker, first: Key)
    requires lo < mid < hi
    ensures fresh(t) && first == lo
    ensures t.Valid() && t.mode == ArpUp && t.staccato && !t.sustaining && t.active == VoiceMap
    ensures t.lastKey == lo && t.voiceMap.Value() == MapValue({lo, mid, hi}, 3)
  {
    t := new NoteTracker();
    t.SetMode(ArpUp);
    t.SetShort(true);
    t.NoteOn(lo);
    assert t.voiceMap.Value() == MapValue({lo}, 1);
    LowestIsUnique({lo}, lo);
    first := t.WhichKey();
    t.NoteOn(mid);
    assert t.voiceMap.Value() == MapValue({lo, mid}, 2);
    t.NoteOn(hi);
    assert t.voiceMap.Value() == MapValue({lo, mid, hi}, 3);
  }

  /** A rising edge with the three-key chord held in the voice map steps `last_key` to `next`, the key `getNext` picks. */
  method RisingEdge(t: NoteTracker, chord: set<Key>, ghost next: Key) returns (sounding: Key)
    requires t.Valid() && !t.sustaining && t.active == VoiceMap
    requires t.voiceMap.Value() == MapValue(chord, 3)
    requires NextKey(chord, t.lastKey, t.mode) == next
    requires t.mode != Normal
    modifies t`clkHi, t`lastKey
    ensures t.Valid() && t.clkHi && t.lastKey == next && sounding == next
    ensures t.mode == old(t.mode) && t.staccato == old(t.staccato)
    ensures !t.sustaining && t.active == VoiceMap && t.voiceMap.Value() == MapValue(chord, 3)
  {
    t.TickArp(true);
    sounding := t.WhichKey();
  }

  /** In `ARP_UP` over `lo < mid < hi`, `getNext` steps `lo` to `mid`, `mid` to `hi` and `hi` round to `lo`. */
  lemma ChordStepsUp(lo: Key, mid: Key, hi: Key)
    requires lo < mid < hi
    ensures NextKey({lo, mid, hi}, lo, ArpUp) == mid
    ensures NextKey({lo, mid, hi}, mid, ArpUp) == hi
    ensures NextKey({lo, mid, hi}, hi, ArpUp) == lo
  {
    var chord: set<Key> := {lo, mid, hi};
    NextKeyIsUnique(chord, lo, ArpUp, mid);
    NextKeyIsUnique(chord, mid, ArpUp, hi);
    NextKeyIsUnique(chord, hi, ArpUp, lo);
  }

  /**
   `ARP_UP` over a three-key chord `lo < mid < hi` (60, 64, 67, say), pressed in that order:
   the first key sounds at once; rising clock edges then step to `mid`, `hi` and round to
   `lo`. In staccato mode the gate is off after a falling edge.
   */
  method ArpScenario(lo: Key, mid: Key, hi: Key) returns (first: Key, second: Key, third: Key, fourth: Key, gateLow: bool)
    requires lo < mid < hi
    ensures first == lo && second == mid && third == hi && fourth == lo
    ensures !gateLow
  {
    var t;
    t, first := PressChord(lo, mid, hi);
    var chord: set<Key> := {lo, mid, hi};
    ChordStepsUp(lo, mid, hi);
    second := RisingEdge(t, chord, mid);
    t.TickArp(false);
    gateLow := t.GetGate();
    third := RisingEdge(t, chord, hi);
    fourth := RisingEdge(t, chord, lo);
  }
}

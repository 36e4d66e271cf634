/**
 The `notetracker` class: two embedded notemaps, a selector in place of
 `active_map_p`, the mode and the flags, and the latched key. Every method is
 proved to move the object's abstract state exactly as the matching function of
 `TrackerSpec` does, and to keep `Coherent`.
 */
module Tracker {
  import opened Keys
  import opened NoteMaps
  import opened TrackerSpec

  class NoteTracker {
    var mode: Mode
    var staccato: bool
    var sustaining: bool
    var clkHi: bool
    /** The two maps are members of the tracker, so they are fixed objects of its own. */
    const voiceMap: NoteMap
    const sustainMap: NoteMap
    /** `active_map_p`, as a choice between the two maps. */
    var active: Selector
    var lastKey: Key

    ghost predicate Valid()
      reads this, voiceMap, voiceMap.keys, sustainMap, sustainMap.keys
    {
      voiceMap != sustainMap && voiceMap.keys != sustainMap.keys &&
      voiceMap.Valid() && sustainMap.Valid() &&
      Coherent(State())
    }

    ghost function State(): TrackerState
      reads this, voiceMap, sustainMap
    {
      TrackerState(mode, staccato, sustaining, clkHi,
                   voiceMap.Value(), sustainMap.Value(), active, lastKey)
    }

    /**
     The object `active_map_p` points at: always one of the tracker's own two maps,
     the sustain map exactly while the pedal is down.
     */
    function ActiveNoteMap(): (m: NoteMap)
      reads this, voiceMap, voiceMap.keys, sustainMap, sustainMap.keys
      requires Valid()
      ensures m == voiceMap || m == sustainMap
      ensures m == sustainMap <==> sustaining
      ensures m.Value() == ActiveMap(State())
    {
      if active == VoiceMap then voiceMap else sustainMap
    }

    /** Normal mode, all flags down, both maps empty, the voice map active, `last_key` 0. */
    constructor ()
      ensures Valid() && State() == Initial
      ensures fresh(voiceMap) && fresh(sustainMap) && fresh(voiceMap.keys) && fresh(sustainMap.keys)
    {
      voiceMap := new NoteMap();
      sustainMap := new NoteMap();
      mode := Normal;
      staccato := false;
      sustaining := false;
      clkHi := false;
      active := VoiceMap;
      lastKey := 0;
    }

    /** `noteOn`: always into the voice map, and into the sustain map too while sustaining. */
    method NoteOn(key: Key)
      requires Valid()
      modifies voiceMap, voiceMap.keys, sustainMap, sustainMap.keys
      ensures Valid()
      ensures State() == TrackerSpec.NoteOn(old(State()), key)
      ensures !old(sustaining) ==> unchanged(sustainMap, sustainMap.keys)
    {
      voiceMap.SetBit(key);
      if sustaining {
        sustainMap.SetBit(key);
      }
      ApplyKeepsCoherent(old(State()), NoteOnEvent(key));
    }

    /** `noteOff`: out of the voice map only; the sustain map is not touched. */
    method NoteOff(key: Key)
      requires Valid()
      modifies voiceMap, voiceMap.keys
      ensures Valid()
      ensures State() == TrackerSpec.NoteOff(old(State()), key)
      ensures unchanged(sustainMap, sustainMap.keys)
    {
      voiceMap.ClearBit(key);
      ApplyKeepsCoherent(old(State()), NoteOffEvent(key));
    }

    method SetMode(m: Mode)
      requires Valid()
      modifies this`mode
      ensures Valid()
      ensures State() == TrackerSpec.SetMode(old(State()), m)
    {
      mode := m;
    }

    /** `getMode`: the value last given to `setMode`. */
    function GetMode(): (m: Mode)
      reads this
      ensures m == State().mode
    {
      mode
    }

    method SetShort(shortOn: bool)
      requires Valid()
      modifies this`staccato
      ensures Valid()
      ensures State() == TrackerSpec.SetShort(old(State()), shortOn)
    {
      staccato := shortOn;
    }

    /** `getShort`: the value last given to `setShort`. */
    function GetShort(): (on: bool)
      reads this
      ensures on == State().staccato
    {
      staccato
    }

    /**
     `setSustain`: on press, a member-by-member copy of the voice map into the sustain
     map, which becomes active; on release the sustain map is emptied and the voice map
     becomes active.
     */
    method SetSustain(on: bool)
      requires Valid()
      modifies this`sustaining, this`active, sustainMap, sustainMap.keys
      ensures Valid()
      ensures State() == TrackerSpec.SetSustain(old(State()), on)
      ensures on ==> sustainMap.keys[..] == voiceMap.keys[..]
      ensures unchanged(voiceMap, voiceMap.keys)
    {
      if on {
        sustaining := true;
        sustainMap.CopyFrom(voiceMap);
        active := SustainMap;
      } else {
        sustaining := false;
        sustainMap.ClearAll();
        active := VoiceMap;
      }
      ApplyKeepsCoherent(old(State()), SustainEvent(on));
    }

    /**
     `getNext`: steps from `start` through the active map, one key at a time in the
     arpeggio's direction with wraparound, and returns the first held key it meets
     before coming back to `start`; `start` if it meets none.
     */
    method GetNext(start: Key) returns (r: Key)
      requires Valid()
      ensures r == NextKey(ActiveMap(State()).held, start, mode)
    {
      var m := ActiveNoteMap();
      ghost var held := m.held;
      assert held == ActiveMap(State()).held;
      var step := Step(mode);
      var key: Key := (start + step) % 128;
      ghost var i: nat := 1;
      while key != start
        invariant 1 <= i <= 128
        invariant key == Probe(start, mode, i)
        invariant mode != Normal ==> NextFrom(held, start, mode, i) == NextKey(held, start, mode)
        decreases 128 - i
      {
        ProbeAdvances(start, mode, i);
        if m.IsBitSet(key) {
          return key;
        }
        key := (key + step) % 128;
        i := i + 1;
      }
      ProbeAdvances(start, mode, i);
      r := start;
    }

    /** `tickArp`: a rising edge raises the clock and, with more than one key counted, steps `last_key`. */
    method TickArp(rising: bool)
      requires Valid()
      modifies this`clkHi, this`lastKey
      ensures Valid()
      ensures State() == TrackerSpec.TickArp(old(State()), rising)
    {
      if rising {
        clkHi := true;
        var m := ActiveNoteMap();
        if m.GetNumBits() > 1 {
          lastKey := GetNext(lastKey);
        }
      } else {
        clkHi := false;
      }
    }

    /** `whichKey`: answers the key to send and latches it into `last_key`. */
    method WhichKey() returns (r: Key)
      requires Valid()
      modifies this`lastKey
      ensures Valid()
      ensures r == TrackerSpec.WhichKey(old(State()))
      ensures State() == AfterWhichKey(old(State()))
    {
      var m := ActiveNoteMap();
      var numKeys := m.GetNumBits();
      if numKeys == 0 {
        return lastKey;
      }
      match mode {
        case ArpUp =>
          if numKeys == 1 {
            lastKey := m.GetLowest();
          }
        case ArpDown =>
          if numKeys == 1 {
            lastKey := m.GetLowest();
          }
        case Normal =>
          lastKey := m.GetLowest();
      }
      r := lastKey;
    }

    /** `getGate`: keys counted in the active map, and in staccato also the clock high. */
    function GetGate(): (g: bool)
      reads this, voiceMap, voiceMap.keys, sustainMap, sustainMap.keys
      requires Valid()
      ensures g == Gate(State())
    {
      var n := ActiveNoteMap().GetNumBits();
      if staccato then clkHi && n > 0 else n > 0
    }
  }

  /** One step of the scan: the next probe is the current one plus the step, modulo 128, and the scan is back at `start` only after 128 steps. */
  lemma ProbeAdvances(start: Key, m: Mode, i: nat)
    requires 1 <= i <= 128
    ensures Probe(start, m, i) == start <==> (m == Normal || i == 128)
    ensures i < 128 ==> Probe(start, m, i + 1) == (Probe(start, m, i) + Step(m)) % 128
  {
  }
}

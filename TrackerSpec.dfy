/**
 The `notetracker` state machine on values: its state, one function per event the
 firmware feeds it, and what it answers (`whichKey`, `getGate`). The class in
 Tracker.dfy is proved to follow these functions; the lemmas here say what they mean.
 */
module TrackerSpec {
  import opened Keys
  import opened NoteMaps

  /** `tracker_mode`: exactly three arpeggiator modes. */
  datatype Mode = Normal | ArpUp | ArpDown

  /** Which of the tracker's own two maps `active_map_p` points at. */
  datatype Selector = VoiceMap | SustainMap

  datatype TrackerState = TrackerState(
    mode: Mode,
    staccato: bool,
    sustaining: bool,
    clkHi: bool,
    voice: MapValue,
    sustain: MapValue,
    active: Selector,
    lastKey: Key)

  /** A freshly constructed tracker. */
  const Initial := TrackerState(Normal, false, false, false, EmptyMap, EmptyMap, VoiceMap, 0)

  /** The map `active_map_p` points at. */
  function ActiveMap(s: TrackerState): MapValue
  {
    if s.active == VoiceMap then s.voice else s.sustain
  }

  /** `noteOn`: the key is set in the voice map, and also in the sustain map while sustaining. */
  function NoteOn(s: TrackerState, k: Key): (t: TrackerState)
    ensures k in t.voice.held && (s.sustaining ==> k in t.sustain.held)
    ensures !s.sustaining ==> t.sustain == s.sustain
    ensures t.(voice := s.voice, sustain := s.sustain) == s
  {
    s.(voice := WithKey(s.voice, k),
       sustain := if s.sustaining then WithKey(s.sustain, k) else s.sustain)
  }

  /** `noteOff`: the key is cleared in the voice map only; the sustain map is untouched. */
  function NoteOff(s: TrackerState, k: Key): (t: TrackerState)
    ensures k !in t.voice.held && t.sustain == s.sustain
    ensures t.(voice := s.voice) == s
  {
    s.(voice := WithoutKey(s.voice, k))
  }

  /** `setMode`: the mode changes and nothing else does. */
  function SetMode(s: TrackerState, m: Mode): (t: TrackerState)
    ensures t.mode == m && t.(mode := s.mode) == s
  {
    s.(mode := m)
  }

  /** `setShort`: the staccato flag changes and nothing else does. */
  function SetShort(s: TrackerState, on: bool): (t: TrackerState)
    ensures t.staccato == on && t.(staccato := s.staccato) == s
  {
    s.(staccato := on)
  }

  /**
   `setSustain`: pressing copies the voice map (bits and count) into the sustain map
   and makes it active; releasing empties the sustain map and makes the voice map active.
   */
  function SetSustain(s: TrackerState, on: bool): (t: TrackerState)
    ensures on ==> t.sustain == s.voice && ActiveMap(t) == s.voice
    ensures !on ==> t.sustain == EmptyMap && ActiveMap(t) == s.voice
    ensures t.voice == s.voice && t.sustaining == on
  {
    if on then s.(sustaining := true, sustain := s.voice, active := SustainMap)
    else s.(sustaining := false, sustain := EmptyMap, active := VoiceMap)
  }

  /** The arpeggiator's step through the keys; `Normal` leaves it at 0 (the firmware leaves it unset). */
  function Step(m: Mode): (r: int)
    ensures -1 <= r <= 1 && (r == 0 <==> m == Normal)
  {
    match m
    case ArpUp => 1
    case ArpDown => -1
    case Normal => 0
  }

  /** The key `getNext` examines `i` steps away from `start`, wrapping modulo 128. */
  function Probe(start: Key, m: Mode, i: nat): (r: Key)
    ensures r == (start + i * Step(m)) % 128
    ensures r == start <==> (m == Normal || i % 128 == 0)
  {
    match m
    case ArpUp => (start + i) % 128
    case ArpDown => (start - i) % 128
    case Normal => start
  }

  /** How many steps in the arpeggio's direction lead from `start` to `k`. */
  function Distance(start: Key, k: Key, m: Mode): (d: nat)
    requires m != Normal
    ensures d < 128 && (d == 0 <==> k == start)
    ensures Probe(start, m, d) == k
  {
    if m == ArpUp then (if start <= k then k - start else k - start + 128)
    else (if k <= start then start - k else start - k + 128)
  }

  lemma DistanceOfProbe(start: Key, m: Mode, i: nat)
    requires m != Normal && i < 128
    ensures Distance(start, Probe(start, m, i), m) == i
  {
  }

  /** Reference scan for `getNext`: the first held key at `i` steps or more, up to 127 steps; else `start`. */
  function NextFrom(held: set<Key>, start: Key, m: Mode, i: nat): (r: Key)
    ensures r == start || r in held
    decreases 128 - i
  {
    if i >= 128 then start
    else if Probe(start, m, i) in held then Probe(start, m, i)
    else NextFrom(held, start, m, i + 1)
  }

  /** `getNext(start)`: the first held key after `start` in the arpeggio's direction, else `start`. */
  function NextKey(held: set<Key>, start: Key, m: Mode): (r: Key)
    ensures r == start || r in held
    ensures m == Normal ==> r == start
  {
    if m == Normal then start else NextFrom(held, start, m, 1)
  }

  lemma {:induction false} NextFromIsNearest(held: set<Key>, start: Key, m: Mode, i: nat)
    requires m != Normal && 1 <= i
    ensures (forall k :: k in held && k != start ==> Distance(start, k, m) < i) ==>
              NextFrom(held, start, m, i) == start
    ensures (exists k :: k in held && k != start && i <= Distance(start, k, m)) ==>
              var r := NextFrom(held, start, m, i);
              r in held && r != start && i <= Distance(start, r, m) &&
              forall k :: k in held && k != start && i <= Distance(start, k, m) ==>
                Distance(start, r, m) <= Distance(start, k, m)
    decreases 128 - i
  {
    if i < 128 {
      var p := Probe(start, m, i);
      DistanceOfProbe(start, m, i);
      if p !in held {
        NextFromIsNearest(held, start, m, i + 1);
        forall k | k in held && k != start && i <= Distance(start, k, m)
          ensures i + 1 <= Distance(start, k, m)
        {
          assert Probe(start, m, Distance(start, k, m)) == k;
        }
      }
    }
  }

  /**
   In an arpeggio mode `getNext(start)` returns the held key other than `start` that is
   met first when stepping from `start` with wraparound, or `start` when no other key is held.
   */
  lemma NextKeyIsNearest(held: set<Key>, start: Key, m: Mode)
    requires m != Normal
    ensures (forall k :: k in held ==> k == start) ==> NextKey(held, start, m) == start
    ensures (exists k :: k in held && k != start) ==>
              var r := NextKey(held, start, m);
              r in held && r != start &&
              forall k :: k in held && k != start ==> Distance(start, r, m) <= Distance(start, k, m)
  {
    NextFromIsNearest(held, start, m, 1);
  }

  /** The nearest other held key is the only possible result of `getNext`. */
  lemma NextKeyIsUnique(held: set<Key>, start: Key, m: Mode, r: Key)
    requires m != Normal && r in held && r != start
    requires forall k :: k in held && k != start ==> Distance(start, r, m) <= Distance(start, k, m)
    ensures NextKey(held, start, m) == r
  {
    NextKeyIsNearest(held, start, m);
    var n := NextKey(held, start, m);
    assert Distance(start, n, m) == Distance(start, r, m);
    assert Probe(start, m, Distance(start, n, m)) == n;
  }

  /** `tickArp`: a rising edge raises the clock flag and steps only with more than one key counted. */
  function TickArp(s: TrackerState, rising: bool): (t: TrackerState)
    ensures t.clkHi == rising
    ensures !rising ==> t == s.(clkHi := false)
    ensures rising && ActiveMap(s).count <= 1 ==> t == s.(clkHi := true)
  {
    if rising then
      s.(clkHi := true,
         lastKey := if ActiveMap(s).count > 1 then NextKey(ActiveMap(s).held, s.lastKey, s.mode)
                    else s.lastKey)
    else s.(clkHi := false)
  }

  /** `whichKey`: the key to send; the tracker latches it into `last_key`. */
  function WhichKey(s: TrackerState): (r: Key)
    ensures r == s.lastKey || r == Lowest(ActiveMap(s).held)
    ensures ActiveMap(s).count == 0 ==> r == s.lastKey
  {
    var n := ActiveMap(s).count;
    if n == 0 then s.lastKey
    else match s.mode
      case Normal => Lowest(ActiveMap(s).held)
      case ArpUp => if n == 1 then Lowest(ActiveMap(s).held) else s.lastKey
      case ArpDown => if n == 1 then Lowest(ActiveMap(s).held) else s.lastKey
  }

  /** The state after `whichKey`: only `last_key` changes. */
  function AfterWhichKey(s: TrackerState): (t: TrackerState)
    ensures t.lastKey == WhichKey(s) && t.(lastKey := s.lastKey) == s
  {
    s.(lastKey := WhichKey(s))
  }

  /** `getGate`: keys counted in the active map, and in staccato also the clock high. */
  function Gate(s: TrackerState): (g: bool)
    ensures g <==> ActiveMap(s).count > 0 && (s.staccato ==> s.clkHi)
  {
    if s.staccato then s.clkHi && ActiveMap(s).count > 0
    else ActiveMap(s).count > 0
  }

  lemma SingletonSet(held: set<Key>)
    requires |held| == 1
    ensures held == {Lowest(held)}
  {
    LowestIsLeast(held);
    var x := Lowest(held);
    assert |held - {x}| == 0;
  }

  /**
   What `whichKey` answers: the latched key when nothing is counted; the lowest held key
   in Normal mode; in an arpeggio mode the single held key, or `last_key` with more than one.
   */
  lemma WhichKeyMeaning(s: TrackerState)
    ensures ActiveMap(s).count == 0 ==> WhichKey(s) == s.lastKey
    ensures ActiveMap(s).count > 0 && s.mode == Normal ==> WhichKey(s) == Lowest(ActiveMap(s).held)
    ensures ActiveMap(s).count > 0 && s.mode == Normal && ActiveMap(s).held != {} ==>
              WhichKey(s) in ActiveMap(s).held &&
              forall k :: k in ActiveMap(s).held ==> WhichKey(s) <= k
    ensures ActiveMap(s).count == 1 ==> WhichKey(s) == Lowest(ActiveMap(s).held)
    ensures CountExact(ActiveMap(s)) && ActiveMap(s).count == 1 ==> ActiveMap(s).held == {WhichKey(s)}
    ensures s.mode != Normal && ActiveMap(s).count > 1 ==> WhichKey(s) == s.lastKey
  {
    var m := ActiveMap(s);
    LowestIsLeast(m.held);
    if CountExact(m) && m.count == 1 {
      SingletonSet(m.held);
    }
  }

  /**
   On a rising edge with more than one key counted in an arpeggio mode, `last_key` moves to
   the nearest other held key in the arpeggio's direction; it stays when there is none.
   */
  lemma TickArpSteps(s: TrackerState)
    requires s.mode != Normal && ActiveMap(s).count > 1
    ensures var t := TickArp(s, true);
            t.clkHi &&
            ((exists k :: k in ActiveMap(s).held && k != s.lastKey) ==>
              t.lastKey in ActiveMap(s).held && t.lastKey != s.lastKey &&
              forall k :: k in ActiveMap(s).held && k != s.lastKey ==>
                Distance(s.lastKey, t.lastKey, s.mode) <= Distance(s.lastKey, k, s.mode)) &&
            ((forall k :: k in ActiveMap(s).held ==> k == s.lastKey) ==> t.lastKey == s.lastKey)
  {
    NextKeyIsNearest(ActiveMap(s).held, s.lastKey, s.mode);
  }

  /** In Normal mode a clock edge never moves `last_key`. */
  lemma TickArpNormalKeepsKey(s: TrackerState, rising: bool)
    requires s.mode == Normal
    ensures TickArp(s, rising).lastKey == s.lastKey
  {
  }

  /** The event stream the firmware feeds the tracker; `Query` is a `whichKey` poll. */
  datatype Event =
    | NoteOnEvent(key: Key)
    | NoteOffEvent(key: Key)
    | SustainEvent(on: bool)
    | ModeEvent(mode: Mode)
    | ShortEvent(on: bool)
    | TickEvent(rising: bool)
    | Query

  function Apply(s: TrackerState, e: Event): TrackerState
  {
    match e
    case NoteOnEvent(k) => NoteOn(s, k)
    case NoteOffEvent(k) => NoteOff(s, k)
    case SustainEvent(on) => SetSustain(s, on)
    case ModeEvent(m) => SetMode(s, m)
    case ShortEvent(on) => SetShort(s, on)
    case TickEvent(rising) => TickArp(s, rising)
    case Query => AfterWhichKey(s)
  }

  function Run(s: TrackerState, events: seq<Event>): TrackerState
    decreases |events|
  {
    if events == [] then s else Run(Apply(s, events[0]), events[1..])
  }

  /**
   The tracker's structural invariant: the sustain map is active exactly while sustaining,
   it is empty when not sustaining, and while sustaining it holds every physically held key.
   */
  predicate Coherent(s: TrackerState)
  {
    (s.active == SustainMap <==> s.sustaining) &&
    (!s.sustaining ==> s.sustain == EmptyMap) &&
    (s.sustaining ==> s.voice.held <= s.sustain.held)
  }

  lemma InitialIsCoherent()
    ensures Coherent(Initial) && ActiveMap(Initial) == EmptyMap
    ensures WhichKey(Initial) == 0 && !Gate(Initial)
  {
  }

  lemma ApplyKeepsCoherent(s: TrackerState, e: Event)
    requires Coherent(s)
    ensures Coherent(Apply(s, e))
  {
  }

  lemma {:induction false} RunKeepsCoherent(s: TrackerState, events: seq<Event>)
    requires Coherent(s)
    ensures Coherent(Run(s, events))
    decreases |events|
  {
    if events != [] {
      ApplyKeepsCoherent(s, events[0]);
      RunKeepsCoherent(Apply(s, events[0]), events[1..]);
    }
  }

  /** Only a clock edge and a `whichKey` poll write `last_key`. */
  lemma ApplyKeepsLastKey(s: TrackerState, e: Event)
    requires !e.TickEvent? && !e.Query?
    ensures Apply(s, e).lastKey == s.lastKey
  {
  }

  /** A note event the voice map's count survives: note-on of a released key, note-off of a held one. */
  predicate VoiceClean(s: TrackerState, e: Event)
  {
    match e
    case NoteOnEvent(k) => k !in s.voice.held
    case NoteOffEvent(k) => k in s.voice.held
    case _ => true
  }

  predicate CleanRun(s: TrackerState, events: seq<Event>)
    decreases |events|
  {
    events == [] || (VoiceClean(s, events[0]) && CleanRun(Apply(s, events[0]), events[1..]))
  }

  lemma ApplyKeepsVoiceCount(s: TrackerState, e: Event)
    requires CountExact(s.voice) && VoiceClean(s, e)
    ensures CountExact(Apply(s, e).voice)
  {
    match e
    case NoteOnEvent(k) => WithKeyKeepsCount(s.voice, k);
    case NoteOffEvent(k) => WithoutKeyKeepsCount(s.voice, k);
    case _ =>
  }

  /** With no double note-on and no stray note-off, the voice map's count stays the true population. */
  lemma {:induction false} RunKeepsVoiceCount(s: TrackerState, events: seq<Event>)
    requires CountExact(s.voice) && CleanRun(s, events)
    ensures CountExact(Run(s, events).voice)
    decreases |events|
  {
    if events != [] {
      ApplyKeepsVoiceCount(s, events[0]);
      RunKeepsVoiceCount(Apply(s, events[0]), events[1..]);
    }
  }

  /**
   The same discipline does not protect the sustain map: a key pressed, sustained, released
   and pressed again is set twice in it, so its count reads 2 while one bit is set.
   In `NORMAL` mode `whichKey` still answers that key, through `getLowest`.
   */
  lemma SustainCountDrifts(k: Key)
    ensures var s := NoteOn(NoteOff(SetSustain(NoteOn(Initial, k), true), k), k);
            CountExact(s.voice) && s.voice.held == {k} &&
            s.sustain.held == {k} && s.sustain.count == 2 && !CountExact(ActiveMap(s)) &&
            WhichKey(s) == k
  {
    LowestIsUnique({k}, k);
  }

  /**
   Sustain round trip: with `a` pressed, the pedal down, `b` pressed and `a` released, the active
   map holds both; once the pedal is up it holds only the key still pressed.
   */
  lemma SustainRoundTrip(a: Key, b: Key)
    requires a != b
    ensures var s := NoteOff(NoteOn(SetSustain(NoteOn(Initial, a), true), b), a);
            ActiveMap(s).held == {a, b} && ActiveMap(SetSustain(s, false)).held == {b}
  {
  }

  /** Pedal release makes exactly the keys still pressed the active set, whatever was sustained. */
  lemma ReleaseRestoresVoice(s: TrackerState)
    ensures ActiveMap(SetSustain(s, false)) == s.voice
    ensures SetSustain(s, false).sustain == EmptyMap
  {
  }

  /** One held key is answered at once in every mode, with no clock edge needed. */
  lemma SingleKeyImmediate(s: TrackerState, k: Key)
    requires ActiveMap(s).held == {k} && ActiveMap(s).count == 1
    ensures WhichKey(s) == k
  {
    LowestIsUnique({k}, k);
  }

  /** With nothing ever pressed `whichKey` gives 0; after a key is pressed, polled and released it keeps giving that key. */
  lemma EmptyStateLatch(k: Key)
    ensures WhichKey(Initial) == 0
    ensures var s := NoteOff(AfterWhichKey(NoteOn(Initial, k)), k);
            ActiveMap(s).count == 0 && WhichKey(s) == k
  {
    assert NoteOn(Initial, k).voice.held == {k};
    LowestIsUnique({k}, k);
  }

  /** Staccato: the gate follows the clock while keys are counted. Legato: the clock does not affect it. */
  lemma GateFollowsClock(s: TrackerState, rising: bool)
    ensures s.staccato ==> Gate(TickArp(s, rising)) == (rising && ActiveMap(s).count > 0)
    ensures !s.staccato ==> Gate(TickArp(s, rising)) == (ActiveMap(s).count > 0)
  {
  }

  /**
   While the count is exact, the gate means what the comment above `getGate` says: some key is
   held or sustained (and, in staccato, the clock is high).
   */
  lemma GateMeansHeld(s: TrackerState)
    requires CountExact(ActiveMap(s))
    ensures Gate(s) <==> ActiveMap(s).held != {} && (s.staccato ==> s.clkHi)
  {
  }

  /** `n` press-and-release pairs of key `k`, one after another, from state `s`. */
  function Presses(s: TrackerState, k: Key, n: nat): (t: TrackerState)
    ensures t.mode == s.mode && t.sustaining == s.sustaining && t.active == s.active
  {
    if n == 0 then s else NoteOff(NoteOn(Presses(s, k, n - 1), k), k)
  }

  /**
   With the pedal down on an empty tracker, each press-and-release pair of `k` keeps the voice
   map empty and exact, but adds one to the sustain map's count (modulo 256) while `k` stays set.
   */
  lemma {:induction false} PressesUnderPedal(k: Key, n: nat)
    ensures var t := Presses(SetSustain(Initial, true), k, n);
            t.voice == EmptyMap && t.sustaining && t.active == SustainMap && !t.staccato &&
            t.sustain == MapValue(if n == 0 then {} else {k}, (n % 256) as Byte)
  {
    if n > 0 {
      PressesUnderPedal(k, n - 1);
    }
  }

  /**
   Every note event is clean (no double press, no stray release), yet after 256 pairs under
   the pedal the sustain count has wrapped to 0: `k` is still sustained and the gate is off.
   */
  lemma GateOffWhileSustained(k: Key)
    ensures var t := Presses(SetSustain(Initial, true), k, 256);
            CountExact(t.voice) && ActiveMap(t).held == {k} && ActiveMap(t).count == 0 && !Gate(t)
  {
    PressesUnderPedal(k, 256);
  }

  /** An arpeggio state holding exactly `chord` with an exact count, at `last_key` = `at`. */
  function ChordState(mode: Mode, chord: set<Key>, at: Key): TrackerState
  {
    HeldAtMost128(chord);
    Initial.(mode := mode, voice := MapValue(chord, |chord| as Byte), lastKey := at)
  }

  /** Up arpeggio over 60, 64, 67: each rising edge steps to the next key up, wrapping from 67 to 60. */
  lemma ArpUpCycle()
    ensures TickArp(ChordState(ArpUp, {60, 64, 67}, 60), true).lastKey == 64
    ensures TickArp(ChordState(ArpUp, {60, 64, 67}, 64), true).lastKey == 67
    ensures TickArp(ChordState(ArpUp, {60, 64, 67}, 67), true).lastKey == 60
  {
    var chord: set<Key> := {60, 64, 67};
    assert |chord| == 3;
    NextKeyIsUnique(chord, 60, ArpUp, 64);
    NextKeyIsUnique(chord, 64, ArpUp, 67);
    NextKeyIsUnique(chord, 67, ArpUp, 60);
  }

  /** Down arpeggio over the same chord visits it in the reverse order. */
  lemma ArpDownCycle()
    ensures TickArp(ChordState(ArpDown, {60, 64, 67}, 60), true).lastKey == 67
    ensures TickArp(ChordState(ArpDown, {60, 64, 67}, 67), true).lastKey == 64
    ensures TickArp(ChordState(ArpDown, {60, 64, 67}, 64), true).lastKey == 60
  {
    var chord: set<Key> := {60, 64, 67};
    assert |chord| == 3;
    NextKeyIsUnique(chord, 60, ArpDown, 67);
    NextKeyIsUnique(chord, 67, ArpDown, 64);
    NextKeyIsUnique(chord, 64, ArpDown, 60);
  }
}

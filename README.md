# MIDI-CV note tracking, modelled in Dafny

This project models the note-tracking core of the SparkFun MIDI-CV converter
firmware (`MIDI-CV/notemap.h`, `MIDI-CV/notemap.cpp`) and proves properties of it.

- `notemap` is a bitmap of the 128 MIDI keys, held as 16 bytes, with a one-byte
  count of held keys. `setBit`, `clearBit` and `clearAll` change it in place.
  `isBitSet`, `getNumBits` and `getLowest` read it. `getLowest` gives low-note
  priority.
- `notetracker` owns two notemaps. The voice map holds the keys physically
  pressed. The sustain map is the pedal's snapshot. A pointer selects the
  active map. The tracker also has an arpeggiator mode (`NORMAL`, `ARP_UP`,
  `ARP_DN`), the flags `staccato`, `sustaining` and `clk_hi`, and a latched
  `last_key`. It takes note on/off, the sustain pedal and arpeggiator clock
  edges. It answers which key to play (`whichKey`) and whether the gate is on
  (`getGate`).

Files and modules:

- `Keys.dfy` (`Keys`): the key type (0..127), the byte type with wrap-around
  `++`/`--`, and the single-bit byte operations.
- `NoteMaps.dfy` (`NoteMaps`): the abstract value of a notemap (`MapValue`: the
  held keys and the cached count), a reference scan for `getLowest`, and the
  class `NoteMap`. The class keeps `keys: array<bv8>` of length 16 and
  `numKeys`, plus a ghost set `held` that `Valid()` ties to the bits.
- `TrackerSpec.dfy` (`TrackerSpec`): the tracker's state as a value
  (`TrackerState`), one function per event, the answers `WhichKey` and `Gate`,
  the reference scan for `getNext`, and the lemmas about them.
- `Tracker.dfy` (`Tracker`): the class `NoteTracker`. It owns two distinct
  `NoteMap` objects. A `Selector` stands in for `active_map_p`. Every method is
  proved to change the abstract state exactly as the matching `TrackerSpec`
  function does, and to keep the invariant `Coherent`.
- `ArpWrap.dfy` (`ArpWrap`): the wrap-around arithmetic of `getNext` exactly as
  the C code writes it, and the inputs where it differs from the intended
  wrap modulo 128 (see Findings).
- `Scenarios.dfy` (`Scenarios`): client methods that drive real `NoteTracker`
  objects through pedal and arpeggio sequences, using only the class contracts.

Modelling choices:

- `sustain_map = voice_map` is the implicit member-by-member copy. It is
  modelled as `NoteMap.CopyFrom`, which copies the 16 bytes into the sustain
  map's own array, then copies the count. No storage is shared.
- `numKeys` is a `uint8_t`. It changes unconditionally: +1 in `setBit`, -1 in
  `clearBit`, modulo 256 (`Keys.Inc`, `Keys.Dec`). The model never assumes the
  count equals the number of set bits. That holds only under the discipline
  stated in `RunKeepsVoiceCount`.
- `whichKey`, `tickArp` and `getGate` look at the cached count, not at the
  bits, as the code does. The comment above `whichKey` says "if no keys are
  held"; the model follows the code, which tests the count. So when the count
  has drifted, `whichKey` can answer `getLowest()` of an empty map, which is 0.
- In `NORMAL` mode the C code leaves `getNext`'s `step` uninitialised. The
  model sets `step = 0` (`TrackerSpec.Step`). The loop then exits at once and
  `getNext` returns `start`. `tickArp` calls `getNext` whenever more than one
  key is counted, whatever the mode. So in `NORMAL` mode a clock edge never
  moves `last_key` (`TickArpNormalKeepsKey`).
- The tracker model steps through keys modulo 128 (Dafny's `%` is Euclidean,
  so `-1 % 128 == 127`). The C code does not, as shown under Findings.

## Model

| member | source | states |
|---|---|---|
| Keys.Inc | MIDI-CV/notemap.cpp:80 | `numKeys++` on a byte: one more, modulo 256; 255 wraps to 0 |
| Keys.Dec | MIDI-CV/notemap.cpp:95 | `numKeys--` on a byte: one less, modulo 256; 0 wraps to 255 |
| Keys.SetBitEffect | MIDI-CV/notemap.cpp:78 | `keys[idx] \|= (0x01 << pos)` sets bit `pos` and leaves the other seven bits of the byte as they were |
| Keys.ClearBitEffect | MIDI-CV/notemap.cpp:93 | `keys[idx] &= ~(0x01 << pos)` clears bit `pos` and leaves the other seven bits as they were |
| Keys.KeyPosition | MIDI-CV/notemap.cpp:75-76 | key `k` is bit `k % 8` of byte `k / 8` (byte 0..15); two keys with the same byte and bit are the same key |
| NoteMaps.WithKey | MIDI-CV/notemap.cpp:73-81 | after `setBit(k)`, `k` is held, every other key's membership is unchanged, and the count is one more modulo 256 |
| NoteMaps.WithoutKey | MIDI-CV/notemap.cpp:88-96 | after `clearBit(k)`, `k` is not held, every other key's membership is unchanged, and the count is one less modulo 256 |
| NoteMaps.HeldAtMost128 | MIDI-CV/notemap.h:69 | a map of 16 bytes × 8 bits holds at most 128 keys |
| NoteMaps.LowestIsLeast | MIDI-CV/notemap.cpp:132-166 | `getLowest` is the smallest held key, or 0 when no key is held |
| NoteMaps.WithKeyKeepsCount | MIDI-CV/notemap.cpp:73-81 | `setBit` of a key not held keeps count = population |
| NoteMaps.WithoutKeyKeepsCount | MIDI-CV/notemap.cpp:88-96 | `clearBit` of a held key keeps count = population |
| NoteMaps.WithKeyTwiceDrifts | MIDI-CV/notemap.cpp:78-80 | `setBit` of a held key leaves the bits alone but breaks count = population |
| NoteMaps.WithoutKeyTwiceDrifts | MIDI-CV/notemap.cpp:93-95 | `clearBit` of a key not held leaves the bits alone but breaks count = population |
| NoteMaps.LowestFrom | MIDI-CV/notemap.cpp:132-166 | the reference scan upward from `from`: a held key at or above `from`, or 0 |
| NoteMaps.Lowest | MIDI-CV/notemap.cpp:132-166 | `getLowest` on a map's held keys: a held key, or 0 (its leastness is `LowestIsLeast`) |
| NoteMaps.NoteMap.constructor | MIDI-CV/notemap.cpp:42-49 | all 16 bytes zero, count zero, no key held |
| NoteMaps.NoteMap.SetBit | MIDI-CV/notemap.cpp:73-81 | ORs the bit `note % 8` of byte `note / 8`; leaves the other 15 bytes unchanged; value becomes `WithKey(old value, note)` |
| NoteMaps.NoteMap.ClearBit | MIDI-CV/notemap.cpp:88-96 | clears the bit `note % 8` of byte `note / 8`; leaves the other 15 bytes unchanged; value becomes `WithoutKey(old value, note)` |
| NoteMaps.NoteMap.ClearAll | MIDI-CV/notemap.cpp:103-110 | all 16 bytes and the count are zero; no key held |
| NoteMaps.NoteMap.CopyFrom | MIDI-CV/notemap.cpp:291 | the copy assignment: this map's own bytes equal the other map's, and so do the count and the held keys |
| NoteMaps.NoteMap.IsBitSet | MIDI-CV/notemap.cpp:116-122 | true exactly when `note` is held |
| NoteMaps.NoteMap.GetNumBits | MIDI-CV/notemap.cpp:172-175 | the cached count; it is the number of held keys when the count has been kept exact |
| NoteMaps.NoteMap.GetLowest | MIDI-CV/notemap.cpp:132-166 | the scan of bytes, then bits, from the bottom: the smallest held key, or 0 when none is held |
| TrackerSpec.NoteOn | MIDI-CV/notemap.cpp:204-212 | the key is set in the voice map always, and in the sustain map while sustaining; nothing else changes |
| TrackerSpec.NoteOff | MIDI-CV/notemap.cpp:222-225 | the key is cleared in the voice map; the sustain map and everything else are untouched |
| TrackerSpec.SetSustain | MIDI-CV/notemap.cpp:279-305 | pressing: the sustain map becomes a copy of the voice map, bits and count, and is active; releasing: the sustain map is empty and the voice map is active |
| TrackerSpec.SetMode | MIDI-CV/notemap.cpp:231-234 | the mode becomes `m`; every other field is as before |
| TrackerSpec.SetShort | MIDI-CV/notemap.cpp:249-252 | the staccato flag becomes `on`; every other field is as before |
| TrackerSpec.Step | MIDI-CV/notemap.cpp:319-328 | the step is +1 in `ARP_UP`, -1 in `ARP_DN`, and 0 exactly in `NORMAL`, where the source leaves it unset |
| TrackerSpec.Probe | MIDI-CV/notemap.cpp:330 | (corrected wrap) the `i`-th key examined is `start + i * step` modulo 128; it is `start` again exactly in `NORMAL` or after a multiple of 128 steps |
| TrackerSpec.Distance | MIDI-CV/notemap.cpp:330 | the number of steps in the arpeggio's direction from `start` to `k`: below 128, zero only for `k == start`, and stepping that far from `start` lands on `k` |
| TrackerSpec.NextFrom | MIDI-CV/notemap.cpp:330-337 | (corrected wrap) the loop from its `i`-th probe on: a held key, or `start` |
| TrackerSpec.NextKey | MIDI-CV/notemap.cpp:317-338 | (corrected wrap) `getNext(start)`: a held key, or `start`; always `start` in `NORMAL` mode |
| TrackerSpec.NextKeyIsNearest | MIDI-CV/notemap.cpp:317-338 | (corrected wrap) in an arpeggio mode, `getNext(start)` is the held key other than `start` that is fewest steps away in the arpeggio's direction with wrap-around, or `start` when no other key is held |
| TrackerSpec.NextKeyIsUnique | MIDI-CV/notemap.cpp:317-338 | (corrected wrap) any held key other than `start` at the least distance is the result of `getNext` |
| TrackerSpec.TickArp | MIDI-CV/notemap.cpp:352-367 | the clock flag follows the edge; a falling edge changes nothing else; a rising edge with at most one key counted changes nothing else |
| TrackerSpec.TickArpSteps | MIDI-CV/notemap.cpp:354-361 | (corrected wrap) on a rising edge with more than one key counted in an arpeggio mode, `last_key` moves to the nearest other held key in the arpeggio's direction, and stays when no other key is held |
| TrackerSpec.TickArpNormalKeepsKey | MIDI-CV/notemap.cpp:319-337 | in `NORMAL` mode (step taken as 0) a clock edge never moves `last_key` |
| TrackerSpec.WhichKey | MIDI-CV/notemap.cpp:382-423 | the answer is the latched key or the lowest held key, and the latched key when nothing is counted (the full case split is `WhichKeyMeaning`) |
| TrackerSpec.AfterWhichKey | MIDI-CV/notemap.cpp:398-418 | `whichKey` latches its answer into `last_key` and changes nothing else |
| TrackerSpec.Gate | MIDI-CV/notemap.cpp:436-446 | the gate is on exactly when keys are counted in the active map and, in staccato, the clock is high |
| TrackerSpec.WhichKeyMeaning | MIDI-CV/notemap.cpp:382-423 | count 0: the latched key; `NORMAL` with a non-zero count: `getLowest` of the active map, whether or not the count is exact, which is the lowest held key when a key is held; a count of 1, exact or not: `getLowest` of the active map in every mode, and with an exact count that is the single held key; arpeggio mode with more than one key: the latched key |
| TrackerSpec.InitialIsCoherent | MIDI-CV/notemap.cpp:185-196 | a fresh tracker is coherent, its active map is empty, `whichKey` gives 0 and the gate is off |
| TrackerSpec.ApplyKeepsCoherent | MIDI-CV/notemap.cpp:204-305 | every event keeps the invariant: sustain map active exactly while sustaining, empty while not, and a superset of the voice map while sustaining |
| TrackerSpec.RunKeepsCoherent | MIDI-CV/notemap.h:124-126 | any sequence of events keeps that invariant |
| TrackerSpec.ApplyKeepsLastKey | MIDI-CV/notemap.h:128 | only a clock edge or a `whichKey` poll writes `last_key` |
| TrackerSpec.ApplyKeepsVoiceCount | MIDI-CV/notemap.cpp:204-225 | a note-on of a released key or a note-off of a held key keeps the voice map's count exact |
| TrackerSpec.RunKeepsVoiceCount | MIDI-CV/notemap.cpp:204-225 | with no double note-on and no stray note-off, the voice map's count stays the number of held keys through any sequence of events |
| TrackerSpec.SustainCountDrifts | MIDI-CV/notemap.cpp:208-211 | that discipline does not protect the sustain map: press, pedal down, release, press again makes its count 2 with one key held, and in `NORMAL` mode `whichKey` still answers that key |
| TrackerSpec.SustainRoundTrip | MIDI-CV/notemap.cpp:279-305 | press `a`, pedal down, press `b`, release `a`: the active set is `{a, b}`; pedal up: it is `{b}` |
| TrackerSpec.ReleaseRestoresVoice | MIDI-CV/notemap.cpp:296-303 | on pedal release the active map is exactly the voice map and the sustain map is empty |
| TrackerSpec.SingleKeyImmediate | MIDI-CV/notemap.cpp:393-418 | with one key held and counted, `whichKey` returns it in every mode, with no clock edge needed |
| TrackerSpec.EmptyStateLatch | MIDI-CV/notemap.cpp:384-389 | with nothing ever pressed `whichKey` is 0; after pressing `k`, polling and releasing, it is still `k` |
| TrackerSpec.GateFollowsClock | MIDI-CV/notemap.cpp:436-446 | staccato: the gate is on after a rising edge when keys are counted and off after a falling edge; legato: the gate is "keys counted", whatever the clock |
| TrackerSpec.GateMeansHeld | MIDI-CV/notemap.cpp:425-446 | while the active map's count is exact, the gate is on exactly when some key is held or sustained and, in staccato, the clock is high |
| TrackerSpec.Presses | MIDI-CV/notemap.cpp:204-225 | `n` press-and-release pairs of one key: mode, pedal and active-map choice are untouched |
| TrackerSpec.PressesUnderPedal | MIDI-CV/notemap.cpp:204-225 | with the pedal down on an empty tracker, `n` clean pairs of `k` leave the voice map empty; the sustain map holds `k` with count `n` modulo 256 |
| TrackerSpec.GateOffWhileSustained | MIDI-CV/notemap.cpp:210 | after 256 clean pairs of `k` under the pedal the sustain count has wrapped to 0: `k` is sustained, yet the gate is off |
| TrackerSpec.ArpUpCycle | MIDI-CV/notemap.cpp:317-367 | in `ARP_UP` over 60, 64, 67, rising edges step 60 to 64 to 67 and wrap to 60 |
| TrackerSpec.ArpDownCycle | MIDI-CV/notemap.cpp:317-367 | in `ARP_DN` over the same chord, the order is reversed: 60 to 67 to 64 to 60 |
| Tracker.NoteTracker.constructor | MIDI-CV/notemap.cpp:185-196 | `NORMAL` mode, all flags false, both maps empty and distinct, voice map active, `last_key` 0 |
| Tracker.NoteTracker.ActiveNoteMap | MIDI-CV/notemap.h:126 | `active_map_p` is always one of the tracker's two maps: the sustain map exactly while sustaining |
| Tracker.NoteTracker.NoteOn | MIDI-CV/notemap.cpp:204-212 | state becomes `TrackerSpec.NoteOn`; when not sustaining, the sustain map's bytes are untouched |
| Tracker.NoteTracker.NoteOff | MIDI-CV/notemap.cpp:222-225 | state becomes `TrackerSpec.NoteOff`; the sustain map object and bytes are untouched |
| Tracker.NoteTracker.SetMode | MIDI-CV/notemap.cpp:231-234 | only the mode changes, to `m` |
| Tracker.NoteTracker.GetMode | MIDI-CV/notemap.cpp:240-243 | the mode last set |
| Tracker.NoteTracker.SetShort | MIDI-CV/notemap.cpp:249-252 | only the staccato flag changes, to `shortOn` |
| Tracker.NoteTracker.GetShort | MIDI-CV/notemap.cpp:258-261 | the staccato flag last set |
| Tracker.NoteTracker.SetSustain | MIDI-CV/notemap.cpp:279-305 | state becomes `TrackerSpec.SetSustain`; on press the sustain map's 16 bytes equal the voice map's; the voice map is untouched |
| Tracker.NoteTracker.GetNext | MIDI-CV/notemap.cpp:317-338 | (corrected wrap) the probe loop over the active map returns the reference scan `NextKey` of the active map's held keys |
| Tracker.NoteTracker.TickArp | MIDI-CV/notemap.cpp:352-367 | (corrected wrap) state becomes `TrackerSpec.TickArp` |
| Tracker.NoteTracker.WhichKey | MIDI-CV/notemap.cpp:382-423 | returns `TrackerSpec.WhichKey` of the old state and latches it; nothing else changes |
| Tracker.NoteTracker.GetGate | MIDI-CV/notemap.cpp:436-446 | `TrackerSpec.Gate` of the state: keys counted in the active map, and in staccato mode also the clock high |
| ArpWrap.ToUint8 | MIDI-CV/notemap.cpp:330 | storing into the loop's `uint8_t key`: results in 0..255; -1 becomes 255 |
| ArpWrap.CRem | MIDI-CV/notemap.cpp:330 | C's `%`: a negative dividend above -128 is its own remainder, so `-1 % 128 == -1` |
| ArpWrap.WrittenHeld | MIDI-CV/notemap.cpp:332 | `isBitSet(key)` on a probe: exactly the held keys in 0..127; keys 128..255 are read as not held (see Left out) |
| ArpWrap.WrittenProbe | MIDI-CV/notemap.cpp:330 | the key the loop as written examines on its `n`-th pass: `uint8_t` arithmetic with C's `%`, always in 0..255 |
| ArpWrap.WrittenNextFrom | MIDI-CV/notemap.cpp:330-337 | the loop as written from its `n`-th pass, with probes 128..255 read as not held (see "Out-of-range reads" under Left out): if it exits within 256 passes, it returns `start` or a held key, and what it returns is the key examined on some pass from `n` on |
| ArpWrap.WrittenNext | MIDI-CV/notemap.cpp:317-338 | `getNext(start)` as written, with probes 128..255 read as not held (see "Out-of-range reads" under Left out): if it exits, it returns `start` or a held key, and that key is one the loop examined |
| ArpWrap.UpFrom127Scan | MIDI-CV/notemap.cpp:330-337 | as written, `ARP_UP` from 127 returns the first held key in 1..126, or 127 when there is none: key 0 never takes part |
| ArpWrap.DownStall | MIDI-CV/notemap.cpp:330-337 | as written, `ARP_DN` with only `start` (in 1..126) and 127 held returns `start` |
| ArpWrap.DownWrapWritten | MIDI-CV/notemap.cpp:330-337 | as written, `ARP_DN` over {`start`, 127} from `start` examines no held key and returns `start` |
| ArpWrap.DownWrapIntended | MIDI-CV/notemap.cpp:317-338 | (corrected wrap) `ARP_DN` over {`start`, 127} from `start` wraps round to 127 |
| ArpWrap.DownFrom127NoExit | MIDI-CV/notemap.cpp:330-337 | as written, `ARP_DN` from 127 with no key but 127 held does not exit within 256 passes |
| ArpWrap.UpFrom127SkipsZero | MIDI-CV/notemap.cpp:330 | as written, `ARP_UP` from 127 examines 128 (outside the map), then 1..126, then stops at 127: key 0 is never examined |
| ArpWrap.DownProbes | MIDI-CV/notemap.cpp:330 | as written, `ARP_DN` from `start` examines `start-1` down to 0, then 255 (outside the map), then 126 down to `start` |
| ArpWrap.DownNeverProbes127 | MIDI-CV/notemap.cpp:330 | as written, `ARP_DN` never examines key 127, from any start |
| ArpWrap.UpWrapCounterexample | MIDI-CV/notemap.cpp:330-337 | keys {0, 127}, `ARP_UP`, from 127: no probe before the return to 127 is held, and the loop as written returns 127; the intended scan returns 0 |
| ArpWrap.DownWrapCounterexample | MIDI-CV/notemap.cpp:330-337 | keys {`start`, 127} with 0 < `start` < 127, `ARP_DN`, from `start`: no probe before the return to `start` is held, and the loop as written returns `start`; the intended scan returns 127 |
| ArpWrap.UpChordWrap | MIDI-CV/notemap.cpp:330-337 | keys {0, `mid`, 127}, `ARP_UP`, from 127: the loop as written, with probes 128..255 read as not held (see "Out-of-range reads" under Left out), returns `mid`; the intended scan returns 0 |
| ArpWrap.DownHang | MIDI-CV/notemap.cpp:204-367 | `ARP_DN`: press 127 and poll, pedal down, release and press 127 again: 127 is latched, the sustain map holds only 127 but counts 2, and no pass of the loop as written probes 127 or a held key, so the next rising edge never returns; the intended scan stays on 127 |
| Scenarios.SustainScenario | MIDI-CV/notemap.cpp:204-305 | on objects: press `a`, pedal down, press `b > a`, release `a`: `whichKey` still answers `a`; after the pedal is released it answers `b` |
| Scenarios.PressChord | MIDI-CV/notemap.cpp:185-423 | on objects: in `ARP_UP` with staccato, pressing `lo < mid < hi` answers `lo` at once and leaves `last_key == lo` with the three keys counted in the voice map |
| Scenarios.RisingEdge | MIDI-CV/notemap.cpp:352-367 | (corrected wrap) on objects: with three keys counted, a rising edge raises the clock and latches the key `getNext` picks, which `whichKey` then answers |
| Scenarios.ChordStepsUp | MIDI-CV/notemap.cpp:317-338 | (corrected wrap) in `ARP_UP` over any `lo < mid < hi`, `getNext` steps `lo` to `mid`, `mid` to `hi` and `hi` round to `lo`; when `lo == 0` and `hi == 127` the firmware as written does not wrap to 0: with probes 128..255 read as not held (see "Out-of-range reads" under Left out) it gives `mid` (`ArpWrap.UpChordWrap`) |
| Scenarios.ArpScenario | MIDI-CV/notemap.cpp:317-446 | (corrected wrap) on objects: `ARP_UP` over `lo < mid < hi` answers `lo`, then `mid`, `hi` and `lo` on successive rising edges; in staccato the gate is low after a falling edge; with `lo == 0` and `hi == 127` the firmware as written does not wrap from `hi` to 0: with probes 128..255 read as not held (see "Out-of-range reads" under Left out) it steps to `mid` (`ArpWrap.UpChordWrap`) |

## Left out

- `notemap::debug` (MIDI-CV/notemap.cpp:55-66): serial printing only; no state changes.
- `arduino-chords/tables.h`: constant scale tables. The quantiser code that reads them is not part of this model.
- Key numbers 128..255: the C functions take `uint8_t`, but the map covers only keys 0..127. Every key argument here is a `Key` in 0..127. The firmware's callers pass MIDI key numbers, which are below 128.
- Out-of-range reads: when `getNext` as written probes key 128 or 255, `isBitSet` reads a byte past the end of `keys`. `ArpWrap` treats keys 128..255 as not held (`ArpWrap.WrittenHeld`) and does not model the memory read. In the class layout `keys[16]` is the map's own `numKeys` byte, so probes 128..135 actually follow the bits of the count. With {0, `mid`, 127} counted 3, bit 0 is set, so `getNext(127)` in `ARP_UP` most likely returns 128 rather than `mid`, and `last_key` leaves 0..127. Probe 255 reads byte 31 past the map's start: for the voice map that is `sustain_map.keys[14]`; for the sustain map it lies past the end of the tracker object.
- Tracker.NoteTracker.GetNext / TrackerSpec.NextKey: they scan with the intended wrap modulo 128, not the firmware's arithmetic. The firmware as written differs from 127 upward (key 0 is skipped) and on every downward scan past 0 (key 127 is never probed), and it can hang (see Findings). `ArpWrap` models the loop as written. Every member built on `NextKey` states the corrected scan.
- ArpWrap.WrittenNextFrom: bounded at 256 passes; `NoExit` means no exit within that bound. That the loop then never exits is stated separately, for all passes, in `DownHang`.
- `NORMAL`-mode `step`: it is uninitialised in the source and taken as 0 here. Undefined behaviour is not modelled.
- TrackerSpec.Gate: follows the count, as `getGate` does (MIDI-CV/notemap.cpp:440, 444), not the held keys that its comment names. The two agree only while the count is exact (`GateMeansHeld`). They part when the count drifts, and also under a clean event stream: every press under the pedal adds one to the sustain count (line 210), which wraps modulo 256, so after 256 press-and-release pairs of one key the gate is off while the key is sustained (`GateOffWhileSustained`). The model states the code's behaviour and does not correct it.
- NoteMaps.NoteMap.GetNumBits: does not state count = population unconditionally, because the source does not keep it so. `RunKeepsVoiceCount` gives the condition under which it holds for the voice map; `SustainCountDrifts` shows it can fail for the sustain map.
- Concurrency: none. The firmware calls the tracker from one loop.

## Findings

| source | as written | input that shows it | evidently intended | confidence | as-written member | corrected member |
|---|---|---|---|---|---|---|
| MIDI-CV/notemap.cpp:330 | `uint8_t key = start+step` is not reduced modulo 128, so in `ARP_UP` from 127 the first probe is 128, outside the map, and key 0 is never examined | `ARP_UP`, keys 0 and 127 held, `last_key == 127`, rising clock edge: `getNext` returns 127, so the arpeggio stays on 127 | wrap from 127 to 0 and step to 0 | not executed; needs key 127, the top MIDI key; probe 128 reads the voice map's `numKeys` byte, which is 2 here, with bit 0 clear, so the result holds in the class layout too | ArpWrap.UpWrapCounterexample | TrackerSpec.NextKeyIsNearest |
| MIDI-CV/notemap.cpp:330 | `(key+step)%128` with `key == 0`, `step == -1` is -1 in C (truncating `%`), stored as 255, so in `ARP_DN` the scan jumps from 0 to 255 then to 126, and key 127 is never examined | `ARP_DN`, keys 60 and 127 held, `last_key == 60`, rising clock edge: `getNext` returns 60, so the arpeggio stays on 60 | wrap from 0 to 127 and step to 127 | not executed; needs key 127, the top MIDI key; probe 255 reads `sustain_map.keys[14]`, which is 0 while not sustaining, so the result holds in the class layout too | ArpWrap.DownWrapCounterexample | TrackerSpec.NextKeyIsNearest |
| MIDI-CV/notemap.cpp:330 | in `ARP_DN` no probe is ever 127, so from `start == 127` the loop as written never comes back to `start`; unless another key is held it never exits | `ARP_DN`: press 127 and poll (`last_key` latches 127), pedal down, release 127, press 127 again; the sustain map holds only 127 but counts 2, so the next rising edge calls `getNext(127)`, which does not return | wrap from 0 to 127, so the scan ends back at 127 | not executed; needs key 127 and a repeated press under the pedal; also assumes bit 7 of the byte read for probe 255, `sustain_map.keys[31]`, past the end of the tracker object, is clear; if it is set, `getNext` returns 255 instead, which is also out of range | ArpWrap.DownHang | TrackerSpec.NextKeyIsNearest |

# mod-host core, modelled in Dafny

mod-host is a JACK host for LV2 audio plugins, driven by text commands over a socket. This
project models the sequential bookkeeping and the byte and string logic that sit around
the plugin and audio plumbing, and proves what that code promises. It covers fourteen
parts of the program, one Dafny module each:

- `Utils` (src/utils.c): `string_split`, cutting a command line on one separator
  character.
- `Protocol` (src/protocol.c): the command table, kept in registration order, and
  `protocol_parse`, which dispatches a line to the first pattern it fits. A `%` token in a
  pattern is a wildcard.
- `Effects` (src/effects.c): the fixed table of effect instances and the operations on it:
  - the validation order and failure path of `effects_add`;
  - single and "remove all" `effects_remove`, and `effects_bypass`;
  - parameter set and get, clamped to the port range and scaled by the sample rate for
    sample-rate ports;
  - symbol and preset lookup, preset load, and the monitor operator mapping;
  - the connect and disconnect retry rules.
  An instance is its input control ports and its preset URIs. JACK and lilv are
  parameters.
- `Monitor` (src/monitor.c): `monitor_check_condition`.
- `Socket` (src/socket.c): the message framing loop of `socket_run`, `socket_send` and
  `socket_send_feedback`. A received chunk is a parameter, and each `send` result comes
  from an oracle.
- `StatePaths` (src/state-paths.c): `GetPluginStateDir` and `MakePluginStatePath`, with the
  loop that creates the missing directories. `access` and `mkdir` are oracles.
- `SysHost` (src/sys_host.h): `sys_serial_write` and `sys_serial_read` on the
  shared-memory byte ring. `Channel` is a class holding the buffer, `head` and `tail`.
- `CircularBuffer` (src/dsp/circular_buffer.h): the noise gate's ring of samples and its
  window power. `Ringbuffer` is a class over an array.
- `Gate` (src/dsp/gate_core.h): the IDLE / HOLD / DECAY state machine of the noise gate.
- `RtMemPool` (src/rtmempool/rtmempool.c): the real-time memory pool with its used and
  unused node lists.
- `PostponedEvents` (tests/rtmempool-test.c): posting events into pool nodes, and the
  newest-first flush that drops stale events. The flush is proved equal to a declarative
  "not superseded by a newer event" definition.
- `Sha1` (src/sha1/sha1.c): the SHA-1 context on a little-endian host. It is proved
  against the definitions of FIPS 180-2: the initial hash values (section 5.3.1), padding
  (section 5.1.1) and compression (section 6.1.2) with the 16-word rolling schedule of
  RFC 3174 section 6.2.
- `Memset` (src/mod-memset.h): the in-place byte and word fill `mod_memset`, and
  `mod_calloc`.
- `Txt2CVar` (utils/txt2cvar.py): writing a text file as a C char-array literal.

Methods change arrays and class fields where the program changes memory in place. Each
method is tied to a specification function, and the properties are proved about that
function.

Constants are taken from the program:
- `MAX_INSTANCES` is 10000.
- `PROTOCOL_MAX_COMMANDS` is 12.
- The error codes are those of src/effects.h.
- `SYS_SERIAL_SHM_DATA_SIZE` is 8152: 8192 minus a 32-byte `sem_t` (64-bit glibc) minus
  8 bytes of indices.
- `op_t` is 8 bytes.

Where the code differs from what a caller might expect, the model follows the code, except for the one defect listed under "## Findings":
- A value out of range is clamped and SUCCESS is returned.
- A connect that JACK reports as existing succeeds.
- Any int is accepted as a bypass value.
- The protocol only ever selects "not found" among its error messages.
- The "same parameter" fast path of `effects_set_parameter` never fires.
- A preset load applies its values one at a time and stops at no error.
- "remove all" stops ten ids short of `MAX_INSTANCES`.
- For the path ".", the state path is three bytes shorter than its buffer, not one.
- `socket_send` subtracts a negative `send` result like any other, so an error makes the
  remaining size grow.
- The noise gate's attack ramp overshoots 1 on its last step, and with an attack time of 0
  the gain is infinite (`Gate.InfiniteGain`, `Gate.GainRange`).

## Model

| member | source | states |
|---|---|---|
| `CircularBuffer.Wrap` | src/dsp/circular_buffer.h:51 | an index below 2S reduced by `% S` lands in [0, S) |
| `CircularBuffer.ModSmall` | src/dsp/circular_buffer.h:51 | for the indices the ring computes, `x % S` is that single conditional subtraction |
| `CircularBuffer.Mod` | src/dsp/circular_buffer.h:117 | the `% S` of the erase formulas equals the wrapped index |
| `CircularBuffer.RingPush` | src/dsp/circular_buffer.h:49-61 | a push keeps m_back ≡ m_front + m_size − 1 (mod S): when full the new back is the old front and the front moves on; otherwise the back follows the window and the size grows |
| `CircularBuffer.RingPop` | src/dsp/circular_buffer.h:69-76 | a pop of a non-empty window keeps the index invariant with the front one slot on and the back unchanged |
| `CircularBuffer.RingDrop` | src/dsp/circular_buffer.h:121-132 | dropping d ≤ m_size oldest samples keeps the index invariant with the front d slots on |
| `CircularBuffer.RingTake` | src/dsp/circular_buffer.h:108-119 | the back recomputed as (m_front + m_size − 1) % S satisfies the index invariant for the shorter window |
| `CircularBuffer.SumTail` | src/dsp/circular_buffer.h:165 | removing the oldest sample subtracts exactly that sample from the window sum |
| `CircularBuffer.SumSlide` | src/dsp/circular_buffer.h:164-167 | a full window slid by one sample changes its sum by new − oldest, the update `power += pow - front` performs |
| `CircularBuffer.SumAppend` | src/dsp/circular_buffer.h:158-160 | appending a sample adds it to the window sum |
| `CircularBuffer.View` | src/dsp/circular_buffer.h:30-37 | the window read out of the slot array, oldest first, has exactly m_size samples |
| `CircularBuffer.ViewAt` | src/dsp/circular_buffer.h:78-86 | sample k of the window is slot (m_front + k) % S |
| `CircularBuffer.ViewUpdate` | src/dsp/circular_buffer.h:63-67 | storing at the back slot replaces the newest sample of the window and nothing else in it |
| `CircularBuffer.ViewRotate` | src/dsp/circular_buffer.h:55 | moving the front of a full window on by one makes the old front slot the newest sample |
| `CircularBuffer.ViewDrop` | src/dsp/circular_buffer.h:129-130 | the window without its d oldest samples is the window starting d slots later |
| `CircularBuffer.ViewTake` | src/dsp/circular_buffer.h:116-117 | the window without its newest samples is the shorter window from the same front |
| `CircularBuffer.Ringbuffer.constructor` | src/dsp/circular_buffer.h:39-47 | a new buffer is in the cleared state for size n |
| `CircularBuffer.Ringbuffer.Clear` | src/dsp/circular_buffer.h:39-47 | S = size, m_size = 0, m_front = 0, m_back = size − 1, power = 0 and every slot zero; the index invariant holds |
| `CircularBuffer.Ringbuffer.Push` | src/dsp/circular_buffer.h:49-61 | back advances mod S; when full the front also advances and the size stays S, otherwise the size grows by one; the window drops its oldest sample only when full |
| `CircularBuffer.Ringbuffer.PushSample` | src/dsp/circular_buffer.h:63-67 | as Push, with x stored at the new back: the window gains x as its newest sample and no other slot changes |
| `CircularBuffer.Ringbuffer.Pop` | src/dsp/circular_buffer.h:69-76 | nothing changes when empty; otherwise the size drops by one, the front advances mod S and the oldest sample leaves the window |
| `CircularBuffer.Ringbuffer.Front` | src/dsp/circular_buffer.h:78-81 | returns the slot at m_front, the oldest sample of a non-empty window |
| `CircularBuffer.Ringbuffer.Back` | src/dsp/circular_buffer.h:83-86 | returns the slot at m_back, the newest sample of a non-empty window |
| `CircularBuffer.Ringbuffer.Empty` | src/dsp/circular_buffer.h:93-96 | true exactly when the window holds no sample |
| `CircularBuffer.Ringbuffer.Full` | src/dsp/circular_buffer.h:98-101 | true exactly when the window holds S samples |
| `CircularBuffer.Ringbuffer.BackErase` | src/dsp/circular_buffer.h:108-119 | n ≥ m_size clears the buffer; otherwise exactly the n newest samples leave, the front and the slots stay |
| `CircularBuffer.Ringbuffer.FrontErase` | src/dsp/circular_buffer.h:121-132 | n ≥ m_size clears the buffer; otherwise exactly the n oldest samples leave, the back and the slots stay |
| `CircularBuffer.Ringbuffer.PeekIndex` | src/dsp/circular_buffer.h:134-150 | over all S slots: 0 when no slot is positive, otherwise the first index holding the strictly largest value |
| `CircularBuffer.Ringbuffer.PushAndCalculatePower` | src/dsp/circular_buffer.h:152-171 | pushes \|input\| / S, sliding a full window, and returns power: the power gains the new sample and, for a full window, loses the oldest one, so a power that was the window sum stays the window sum; the only slot of the array that changes is the new back |
| `CircularBuffer.Abs` | src/dsp/circular_buffer.h:154 | sqrt(input * input) computed exactly: the non-negative one of x and −x |
| `CircularBuffer.Share` | src/dsp/circular_buffer.h:154 | the definition of one sample's share of the window, x * (1 / size); CircularBuffer.Ringbuffer.PushAndCalculatePower states its use |
| `Effects.Clamp` | src/effects.c:1613-1614 | a value above max becomes max, else a value below min becomes min: the result lies in [min, max] for a non-empty range, is unchanged when already in range, and the max test comes first when the range is empty |
| `Effects.ClampIdempotent` | src/effects.c:1613-1614 | clamping an already clamped value changes nothing, so set and get agree on in-range values |
| `Effects.IndexOf` | src/effects.c:623-640 | the first position holding the key, with no earlier position holding it; None exactly when the key is absent |
| `Effects.Symbols` | src/effects.c:630-632 | the symbol of every input control port, in port order |
| `Effects.FindEffectPortBySymbol` | src/effects.c:623-640 | the loop returns the first input control port whose symbol equals the key, or NULL when none does |
| `Effects.FindPreset` | src/effects.c:688-700 | SUCCESS with the first preset whose URI equals the key, or −400 when no preset has it |
| `Effects.IndexOfFirst` | src/effects.c:623-640 | a position holding the key with no earlier one holding it is the position the lookup finds |
| `Effects.SetPortValue` | src/effects.c:1590-1621 | storing into port i: its value becomes the clamp to its (sample-rate scaled) range, every other port and every other field of port i stay, the symbols stay |
| `Effects.ApplyStateKeepsPorts` | src/effects.c:642-651 | restoring a preset's values changes only values: the same ports, symbols, bounds and flags |
| `Effects.ApplyStateUntouched` | src/effects.c:642-651 | a port whose symbol the state does not name keeps its value |
| `Effects.ApplyStateInRange` | src/effects.c:642-651 | when every value is in its range before a preset is restored, every value is in its range after |
| `Effects.PortRangeIgnoresValue` | src/effects.c:1596-1611 | the range a port is clamped to does not depend on the value in its buffer |
| `Effects.MonitorOp` | src/effects.c:1712-1726 | ">", ">=", "<", "<=", "==", "!=" give 0..5 in that order; −1 exactly for every other string |
| `Effects.Connect` | src/effects.c:1537-1548 | tries (A, B) then (B, A), taking EEXIST as success: SUCCESS exactly when either order returns 0 or EEXIST, otherwise ERR_JACK_PORT_CONNECTION |
| `Effects.Disconnect` | src/effects.c:1550-1559 | SUCCESS exactly when either order's jack_disconnect returns 0, otherwise ERR_JACK_PORT_DISCONNECTION |
| `Effects.ConnectionsSymmetric` | src/effects.c:1537-1559 | connect and disconnect give the same result with the two ports swapped |
| `Effects.ConnectExisting` | src/effects.c:1541-1543 | connecting ports that are already connected succeeds |
| `Effects.Host.constructor` | src/effects.c:311-327 | the table has MAX_INSTANCES slots, none live, and the set-parameter cache is empty |
| `Effects.Host.InstanceDelete` | src/effects.c:311-317 | an in-range id loses its jack client (not live), with nothing else in the table changed; an out-of-range id changes nothing |
| `Effects.Host.Remove` | src/effects.c:1451-1535 | −1 walks ids 0..MAX_INSTANCES−11, any other id only itself; slots outside that range never change; SUCCESS exactly when every live slot in range deactivates, and then all of them stop being live; otherwise ERR_JACK_CLIENT_DEACTIVATION at the first failing live slot, with the earlier ones removed and it and the later ones untouched |
| `Effects.Host.Add` | src/effects.c:854-1371 | null URI → ERR_LV2_INVALID_URI, out-of-range id → ERR_INSTANCE_INVALID, live id → ERR_INSTANCE_ALREADY_EXISTS, each with no slot touched; otherwise only that slot changes: on success the id is returned with the plugin's ports and presets, bypass 0 and no monitors; on failure the first failing step's code is returned and the slot is left not live unless its deactivation fails |
| `Effects.Host.Bypass` | src/effects.c:1747-1756 | a live id stores the value, whatever it is, and returns SUCCESS; any other id returns ERR_INSTANCE_NON_EXISTS with nothing changed |
| `Effects.Host.SetParameter` | src/effects.c:1561-1629 | non-live id → ERR_INSTANCE_NON_EXISTS with nothing changed; unknown symbol → ERR_LV2_INVALID_PARAM_SYMBOL; otherwise the first port with that symbol takes the clamped value, SUCCESS, and the cache holds that symbol, port and range; the fast path never fires because last_effect_id stays −1 |
| `Effects.Host.GetParameter` | src/effects.c:1661-1702 | the same two error codes; otherwise SUCCESS with the stored value clamped to the port's scaled range |
| `Effects.Host.SetThenGet` | src/effects.c:1561-1702 | a set followed by a get gives the same code, and on success reads back the clamped value, which is the value set when it was in range |
| `Effects.Host.MonitorParameter` | src/effects.c:1704-1745 | the get-parameter errors first, then −1 for an unknown operator, each with nothing changed; otherwise one monitor with the operator's number, the value and last-notified 0 is appended to that slot only, and 0 is returned |
| `Effects.Host.PresetLoad` | src/effects.c:1373-1397 | non-live id → ERR_INSTANCE_NON_EXISTS, unknown preset URI → ERR_LV2_INVALID_PRESET_URI, state not loadable → ERR_LV2_CANT_LOAD_STATE, each with nothing changed; otherwise the state's values are applied through set-parameter and SUCCESS is returned |
| `Effects.InstanceIsValid` | src/effects.c:242 | the definition of INSTANCE_IS_VALID: an id from 0 to MAX_INSTANCES - 1; no contract of its own, and Effects.Host.Add, Effects.Host.Remove and Effects.Host.InstanceDelete state what it guards |
| `Effects.RemoveRange` | src/effects.c:1457-1481 | the definition: REMOVE_ALL sweeps ids 0 to MAX_INSTANCES - 10 (exclusive), and any other id sweeps only itself; Effects.Host.Remove states its consequences |
| `Effects.NumericOrZero` | src/effects.c:1567 | the definition: a bound the plugin does not give as a number reads as 0.0; Effects.PortRangeIgnoresValue and Effects.SetPortValue state its consequences |
| `Effects.PortRange` | src/effects.c:1596-1611 | the definition: the port's minimum and maximum, 0.0 where not numeric, both scaled by the sample rate for sample-rate ports; Effects.PortRangeIgnoresValue and Effects.SetPortValue state its properties |
| `Effects.SetBySymbol` | src/effects.c:642-651 | the definition of one step of applying a saved state: an unknown symbol leaves the ports as they are, a known one goes through SetPortValue; Effects.ApplyStateKeepsPorts, Effects.ApplyStateUntouched and Effects.ApplyStateInRange state its properties |
| `Effects.ApplyState` | src/effects.c:642-651 | the definition: every saved value in turn set by symbol; Effects.ApplyStateKeepsPorts, Effects.ApplyStateUntouched and Effects.ApplyStateInRange state its properties |
| `Effects.FindPlugin` | src/effects.c:929-950 | the definition: the plugin is looked up in the catalogue, then after a reload of the plugin list; Effects.Host.Add states its consequences |
| `Effects.AddError` | src/effects.c:917-1354 | the definition: the first failing step of effects_add, in the code's order (client creation, plugin URI, instantiation, memory allocation, port registration, activation), or SUCCESS; Effects.Host.Add states its consequences |
| `Effects.Host.InstanceExist` | src/effects.c:319-327 | the definition: a valid id whose slot holds a live instance; no contract of its own, and Effects.Host.Add, Effects.Host.Remove and Effects.Host.InstanceDelete state how it changes |
| `Effects.Scaled` | src/effects.c:1607-1611 | the definition of a bound multiplied by the sample rate; Effects.PortRangeIgnoresValue states its use |
| `Gate.Inc` | src/dsp/gate_core.h:83 | `++` on a uint32 counter stays a uint32 (2^32 − 1 wraps to 0) |
| `Gate.Step` | src/dsp/gate_core.h:68-130 | one step of the switch keeps every counter a uint32 |
| `Gate.Scale` | src/dsp/gate_core.h:132 | input × gain is a finite sample exactly when the gain is finite, and then it is the product |
| `Gate.IdleBelowUpper` | src/dsp/gate_core.h:89-91 | IDLE with the level not above the upper threshold: gain 0, still IDLE, every counter (attack included) unchanged |
| `Gate.IdleAboveUpper` | src/dsp/gate_core.h:72-88 | IDLE above the upper threshold: a counter past the attack time moves to HOLD with hold and attack counters 0 and gain 1; otherwise the attack counter increments (wrapping to 0 with gain 0) and the gain is counter² / attackTime² |
| `Gate.HoldStep` | src/dsp/gate_core.h:94-107 | HOLD always gives gain 1; above the lower threshold the hold counter resets; otherwise it counts up to the hold time and then the state becomes DECAY with decay counter 0 |
| `Gate.DecayStep` | src/dsp/gate_core.h:109-129 | DECAY ignores both level tests: past the decay time it moves to IDLE with gain 0, otherwise the decay counter increments, with gain 1 on its first step |
| `Gate.Transitions` | src/dsp/gate_core.h:68-130 | a step keeps the state or moves IDLE→HOLD, HOLD→DECAY or DECAY→IDLE, and it moves exactly under the three conditions the switch tests |
| `Gate.InfiniteGain` | src/dsp/gate_core.h:83-85 | the gain is +inf exactly when IDLE with the level above the upper threshold, attack time 0 and attack counter 0 |
| `Gate.SquareQuotient` | src/dsp/gate_core.h:85 | n² / d² lies in [0, 1] for 0 ≤ n ≤ d, below 1 for n < d |
| `Gate.SquareQuotientAbove` | src/dsp/gate_core.h:85 | n² / d² exceeds 1 for n > d > 0 |
| `Gate.GainRange` | src/dsp/gate_core.h:68-130 | with a non-zero attack time the gain is finite and non-negative, and exceeds 1 exactly on the IDLE step where the attack counter reaches attackTime + 1 |
| `Gate.StepKeepsBounded` | src/dsp/gate_core.h:68-130 | attack ≤ attackTime + 1, hold ≤ holdTime and decay ≤ decayTime + 1 are kept by every step |
| `Gate.After` | src/dsp/gate_core.h:64-133 | a run of steps keeps every counter a uint32 |
| `Gate.AttackOpens` | src/dsp/gate_core.h:72-80 | a level that stays above the upper threshold opens the gate: after attackTime + 2 − counter steps the state is HOLD with counters 0 and gain 1 |
| `Gate.DecayCloses` | src/dsp/gate_core.h:109-114 | whatever the level, DECAY closes: after decayTime + 2 − counter steps the state is IDLE with gain 0 and the attack counter kept |
| `Gate.Gate.constructor` | src/dsp/gate_core.h:45-62 | a new gate is in the state gate_init leaves |
| `Gate.Gate.Init` | src/dsp/gate_core.h:45-62 | alpha 1, levels and thresholds 0, every time and counter 0, IDLE, tau 0, gain 0 and the window cleared for 128 slots |
| `Gate.Gate.ResetFields` | src/dsp/gate_core.h:47-60 | every scalar field takes its gate_init value |
| `Gate.Gate.ResetLevels` | src/dsp/gate_core.h:47-51 | alpha 1 and the four levels and tau 0 |
| `Gate.Gate.ResetMachine` | src/dsp/gate_core.h:52-60 | the times and counters 0, IDLE, gain 0 |
| `Gate.Gate.Run` | src/dsp/gate_core.h:64-133 | only the key value, the level, the state machine and the window's indices, power and newest slot change (S, alpha, tau, the times, the thresholds and every other slot stay); the key value is the window power after pushing \|input\| / S, which gains that sample and, for a full window, loses the oldest; the level is \|key\| / sqrt 2 except in DECAY, which keeps the old one; the registers take one Step on the two threshold tests; the output is input × the new gain |
| `Gate.Gate.Listen` | src/dsp/gate_core.h:66 | the key value is the window's power after the push: the power gains \|input\| / S and, for a full window, loses the oldest sample; the samples slide the same way, only the new back slot of the array changes, and a power that was the window sum stays the window sum |
| `Gate.Gate.Advance` | src/dsp/gate_core.h:68-130 | the switch on the current state performs exactly one Step |
| `Gate.Gate.StepIdle` | src/dsp/gate_core.h:70-92 | the IDLE case computes the level and performs Step |
| `Gate.Gate.StepHold` | src/dsp/gate_core.h:94-107 | the HOLD case computes the level and performs Step |
| `Gate.Gate.StepDecay` | src/dsp/gate_core.h:109-129 | the DECAY case performs Step without computing the level |
| `Gate.Gate.Apply` | src/dsp/gate_core.h:135-138 | input × the current gain, with no state change |
| `Gate.Ramp` | src/dsp/gate_core.h:83-85 | the definition of powf(n, 2) / powf(d, 2), +inf for a zero divisor; Gate.InfiniteGain, Gate.SquareQuotient and Gate.SquareQuotientAbove state its properties |
| `Memset.UChar` | src/mod-memset.h:50 | `(unsigned char) c` is c modulo 256 |
| `Memset.PatternBytes` | src/mod-memset.h:50-56 | every one of the eight bytes of the word cccc is (unsigned char) c |
| `Memset.StoreWord` | src/mod-memset.h:72 | a word store sets the eight bytes at dstp to the word's bytes, lowest byte first, and touches no other byte |
| `Memset.StorePattern` | src/mod-memset.h:97 | storing cccc at the end of a filled range extends it by OPSIZ bytes and touches no other byte |
| `Memset.AlignBytes` | src/mod-memset.h:60-66 | single bytes are stored until the first address divisible by OPSIZ, fewer than OPSIZ of them, with len reduced by as many; no earlier address is aligned and nothing else changes |
| `Memset.FillBlocks` | src/mod-memset.h:68-90 | len / 64 rounds advance dstp by exactly that many 64-byte blocks, all filled, and touch nothing beyond them |
| `Memset.FillBlock` | src/mod-memset.h:72-88 | the eight word stores of one round fill 64 bytes and touch nothing else |
| `Memset.FillWords` | src/mod-memset.h:93-101 | len / OPSIZ word stores advance dstp by that many words, all filled, and touch nothing beyond them |
| `Memset.FillBytes` | src/mod-memset.h:105-112 | the last len bytes are filled one at a time and nothing else changes |
| `Memset.ModMemset` | src/mod-memset.h:39-116 | returns dst; every byte of [dst, dst + len) becomes (unsigned char) c, whatever the alignment of dst, and every byte outside it is unchanged |
| `Memset.CallocSize` | src/mod-memset.h:121 | `size *= nmemb` on size_t: below 2^64, and the true product whenever that fits |
| `Memset.CallocSizeWraps` | src/mod-memset.h:121 | there is no overflow check: 2^32 × 2^32 asks malloc for 0 bytes |
| `Memset.ModCalloc` | src/mod-memset.h:118-126 | NULL exactly when malloc fails; otherwise a new block of the wrapped size, every byte zero |
| `Memset.Pattern` | src/mod-memset.h:50-56 | the definition: the byte spread over a 64-bit word by the code's three or-shifts; Memset.PatternBytes states that every byte of the word is that byte |
| `Monitor.CheckCondition` | src/monitor.c:200-218 | the result is 0 or 1; ops 0..3 give 1 exactly when value >, >=, <, <= the condition value; op 4 gives 1 exactly when the values do not differ enough, op 5 exactly when they do; any other op gives 0 |
| `Monitor.EqualNotEqualComplementary` | src/monitor.c:212-215 | "==" and "!=" give complementary results for the same inputs, whatever floats_differ_enough decides |
| `Monitor.OrderComplementary` | src/monitor.c:204-211 | ">" and "<=" give complementary results, and so do ">=" and "<" |
| `PostponedEvents.Trunc` | tests/rtmempool-test.c:90 | a symbol as strncpy stores it and strncmp compares it: a prefix of at most 255 characters |
| `PostponedEvents.ShouldIgnore` | tests/rtmempool-test.c:83-124 | a NULL symbol is never ignored and leaves the cache alone; otherwise the event is ignored exactly when its (effect id, truncated symbol) matches the last key or a listed one, its key is then among the cached keys, and an ignored event leaves the cache as it was |
| `PostponedEvents.Lookup` | tests/rtmempool-test.c:83-124 | the last-key test, then the walk of the symbol list, then the append: the same answer and cache as ShouldIgnore |
| `PostponedEvents.KeysSupersede` | tests/rtmempool-test.c:193-227 | a param or output event has no newer superseding event exactly when its key is not among the keys the flush cached from the newer events |
| `PostponedEvents.ProgramSupersede` | tests/rtmempool-test.c:229-242 | a program change has no newer superseding event exactly when no newer program change of a non-ignored effect exists |
| `PostponedEvents.HasProgramCons` | tests/rtmempool-test.c:229-242 | a queue holds a program change of a non-ignored effect exactly when its tail does or its head is one |
| `PostponedEvents.CacheStep` | tests/rtmempool-test.c:195-208 | a cache lookup followed by the store of the last key adds exactly this event's key to the cached keys and keeps the last key listed |
| `PostponedEvents.VisitSummarises` | tests/rtmempool-test.c:179-253 | one more turn of the newest-first loop keeps the walk equal to the reference feedback, caches holding exactly the keys visited, and the program flag |
| `PostponedEvents.WalkIsReference` | tests/rtmempool-test.c:179-253 | the whole newest-first walk sends exactly the reference feedback: every event of a non-ignored effect that no newer event of the same kind and key (or, for program changes, no newer program change) supersedes |
| `PostponedEvents.Others` | tests/rtmempool-test.c:185-189 | the events of other effects, each taken from the queue |
| `PostponedEvents.IgnoredChangeNothing` | tests/rtmempool-test.c:185-189 | the ignored effect's events leave no trace: the walk over the queue equals the walk over the queue without them |
| `PostponedEvents.Events` | tests/rtmempool-test.c:179-181 | the event of every queued node, in queue order |
| `PostponedEvents.Nodes` | tests/rtmempool-test.c:269-273 | the pool node of every queued event: one list head before the payload |
| `PostponedEvents.RemoveKeeps` | src/rtmempool/rtmempool.c:190-193 | unlinking one node leaves every other node on the used list |
| `PostponedEvents.ReturnAllKeepsUsed` | tests/rtmempool-test.c:269-273 | while the queue's nodes are handed back in order, the ones not yet returned are still in use |
| `PostponedEvents.ReturnAllUnused` | tests/rtmempool-test.c:269-273 | after returning the first n nodes, they follow the old unused list in queue order |
| `PostponedEvents.NextStillUsed` | tests/rtmempool-test.c:269-273 | the next node to hand back is one list head before its payload and still in use |
| `PostponedEvents.ReturnAllUsed` | tests/rtmempool-test.c:269-273 | returning n distinct used nodes shortens the used list by n |
| `PostponedEvents.ReturnAllElems` | tests/rtmempool-test.c:269-273 | returning the queue's nodes keeps the set of pool nodes |
| `PostponedEvents.ReturnAllKeepsNodes` | tests/rtmempool-test.c:269-273 | returning the queue's nodes keeps the pool's node set and keeps every node on exactly one list |
| `PostponedEvents.HeldDistinct` | tests/rtmempool-test.c:353-377 | the queued events sit in distinct pool nodes |
| `PostponedEvents.PostKeepsHeld` | tests/rtmempool-test.c:361-377 | posting an event into the node the pool hands out keeps every queued node in use and every queued event storable |
| `PostponedEvents.HeldAppend` | tests/rtmempool-test.c:377 | appending a node that was not in use, now in use, keeps the queue's nodes distinct and in use |
| `PostponedEvents.EventsAppend` | tests/rtmempool-test.c:377 | appending a node to the queue appends its event |
| `PostponedEvents.TakenUnused` | src/rtmempool/rtmempool.c:166-176 | the node allocate hands out was not in use |
| `PostponedEvents.Postponed.constructor` | tests/rtmempool-test.c:71-76 | an empty shared list, the ready flag clear, and the given pool |
| `PostponedEvents.Postponed.Post` | tests/rtmempool-test.c:353-377 | when the pool is exhausted nothing is queued and nothing changes; otherwise the pool's next node is taken and the event is appended to the shared list in it |
| `PostponedEvents.Postponed.Run` | tests/rtmempool-test.c:127-290 | the shared list is left empty; an empty queue sends nothing and keeps the ready flag; otherwise the reference feedback is sent, then "data_finish" exactly when the flag was set, the flag is cleared, and every node goes back to the pool in queue order |
| `PostponedEvents.Postponed.Release` | tests/rtmempool-test.c:269-273 | every node of the queue is deallocated, front to back |
| `PostponedEvents.Postponed.ReleaseOne` | tests/rtmempool-test.c:271-272 | one deallocation advances the return of the queue by one node |
| `PostponedEvents.Report` | tests/rtmempool-test.c:161-253 | the loop from the last node back, with both caches and the program flag as locals, sends exactly the reference feedback |
| `PostponedEvents.Visit` | tests/rtmempool-test.c:193-250 | the definition of one turn of the newest-first flush loop; PostponedEvents.VisitSummarises states its properties |
| `PostponedEvents.WalkBack` | tests/rtmempool-test.c:179-253 | the definition: the flush loop run over the whole queue from its newest event back; PostponedEvents.WalkIsReference states that it sends the reference feedback |
| `PostponedEvents.Reference` | tests/rtmempool-test.c:179-253 | the independent definition of what a flush should report: newest first, every event of another effect that no newer event supersedes; PostponedEvents.WalkIsReference ties the loop to it |
| `PostponedEvents.Message` | tests/rtmempool-test.c:199-250 | the definition of the feedback line each event kind sends (param_set, output_set, midi_program, midi_mapped); PostponedEvents.WalkIsReference states which events send it |
| `PostponedEvents.KeyOf` | tests/rtmempool-test.c:118 | the definition of what the caches remember about an event: its effect id and its symbol cut to the buffer size; PostponedEvents.ShouldIgnore states its use |
| `PostponedEvents.Supersedes` | tests/rtmempool-test.c:193-242 | the definition of when a newer event hides an older one: the same kind and key for parameter and output events, any newer program change, never for MIDI maps; PostponedEvents.WalkIsReference states its use |
| `Protocol.FirstMatchFrom` | src/protocol.c:133-153 | the first pattern at or after a position that fits: same token count and every token without '%' equal to the received token; none earlier fits; None when no later pattern fits |
| `Protocol.WildcardAcceptsAnything` | src/protocol.c:107-111 | a token containing '%' accepts every received token, numeric or not |
| `Protocol.FirstMatchIsFirst` | src/protocol.c:133-152 | a fitting pattern with no fitting pattern before it is the one the matcher selects, and no fit at all gives NOT_FOUND |
| `Protocol.CommandTable.constructor` | src/protocol.c:79-82 | the table starts with no registered pattern or callback |
| `Protocol.CommandTable.AddCommand` | src/protocol.c:186-197 | on a C string command (no NUL inside): a full table (PROTOCOL_MAX_COMMANDS entries) is left unchanged; otherwise the split pattern and the callback are appended at g_index, which grows by one |
| `Protocol.CommandTable.Parse` | src/protocol.c:120-183 | on a C string line (no NUL inside): a NULL line sends nothing; otherwise the first fitting pattern wins: with a callback its response and the NUL after it are sent, without one nothing is sent; when nothing fits "not found" and its NUL are sent, never the other error messages |
| `Protocol.NotIsWildcard` | src/protocol.c:107-111 | the definition: a token with no '%' in it; Protocol.WildcardAcceptsAnything states what the others match |
| `Protocol.Matches` | src/protocol.c:136-149 | the definition of a fitting pattern: as many tokens as received, and every token without '%' equal to the received one; Protocol.FirstMatchFrom and Protocol.FirstMatchIsFirst state its use |
| `Protocol.FirstMatch` | src/protocol.c:133-153 | the definition: the first registered pattern that fits; Protocol.FirstMatchFrom states its properties |
| `RtMemPool.RemoveElems` | src/rtmempool/rtmempool.c:190 | list_del of a node on a list takes exactly that one node out of it |
| `RtMemPool.RemoveLength` | src/rtmempool/rtmempool.c:190 | list_del of a node on a list shortens it by one |
| `RtMemPool.RemoveAbsent` | src/rtmempool/rtmempool.c:190 | unlinking a node that is not on a list leaves it as it is |
| `RtMemPool.RemoveAppend` | src/rtmempool/rtmempool.c:172 | unlinking the node just appended to a list that did not hold it restores the list |
| `RtMemPool.TakenKeepsNodes` | src/rtmempool/rtmempool.c:166-172 | moving the head of unused to the tail of used keeps the node set, moves one count from unused to used, and keeps every node on exactly one list |
| `RtMemPool.ReturnedKeepsNodes` | src/rtmempool/rtmempool.c:190-193 | moving a used node to the tail of unused keeps the node set, moves one count from used to unused, and keeps every node on exactly one list |
| `RtMemPool.TakeThenReturn` | src/rtmempool/rtmempool.c:151-193 | deallocating the chunk just allocated restores the used list and puts its node last on unused |
| `RtMemPool.DistinctWellFormed` | src/rtmempool/rtmempool.c:96-107 | distinct preallocated blocks on unused, with used empty, put every node on exactly one list |
| `RtMemPool.DistinctCount` | src/rtmempool/rtmempool.c:98 | distinct blocks occur once each |
| `RtMemPool.Pool.constructor` | src/rtmempool/rtmempool.c:79-107 | both lists start empty, then blocks are preallocated onto unused until there are maxPreallocated or malloc fails: used is empty, unused is the blocks obtained, at most maxPreallocated, and the counts are the list lengths |
| `RtMemPool.Pool.Allocate` | src/rtmempool/rtmempool.c:151-177 | an empty unused list gives NULL and no change; otherwise the head of unused moves to the tail of used, the counts move by one and the node's payload (node + 1) is returned; the sum of the counts is kept |
| `RtMemPool.Pool.Deallocate` | src/rtmempool/rtmempool.c:182-196 | the node one list head before the address passed moves from used to the tail of unused, used count − 1, unused count + 1 |
| `RtMemPool.Pool.Destroy` | src/rtmempool/rtmempool.c:116-146 | with no chunk in use, every unused node is unlinked and freed head first until both lists are empty |
| `RtMemPool.Create` | src/rtmempool/rtmempool.c:53-112 | false exactly when the pool's own malloc fails; otherwise a new pool with no used node and min(blocks available, maxPreallocated) unused ones |
| `RtMemPool.Remove` | src/rtmempool/rtmempool.c:190 | the definition of list_del on the model's lists; RtMemPool.RemoveElems, RtMemPool.RemoveLength and RtMemPool.RemoveAbsent state its properties |
| `RtMemPool.Taken` | src/rtmempool/rtmempool.c:166-172 | the definition of allocate's list surgery: the head of the unused list moves to the tail of the used list; RtMemPool.TakenKeepsNodes and RtMemPool.Pool.Allocate state its properties |
| `RtMemPool.Returned` | src/rtmempool/rtmempool.c:190-193 | the definition of deallocate's list surgery: the node leaves the used list for the tail of the unused list; RtMemPool.ReturnedKeepsNodes and RtMemPool.Pool.Deallocate state its properties |
| `Sha1.RotlRotates` | src/sha1/sha1.c:24-26 | `(x << n) \| (x >> (32 - n))` is a 32-bit left rotation for each shift the program uses (1, 5 and 30) |
| `Sha1.ChoiceForm` | src/sha1/sha1.c:43 | `d ^ (b & (c ^ d))` is the Ch function of FIPS 180-2 section 4.1.1 |
| `Sha1.MajorityForm` | src/sha1/sha1.c:47 | `(b & c) \| (d & (b \| c))` is the Maj function of FIPS 180-2 section 4.1.1 |
| `Sha1.Compress` | src/sha1/sha1.c:58-62 | a compression maps five state words to five state words |
| `Sha1.CompressOf` | src/sha1/sha1.c:58-62 | the compressed state is the old state plus the working variables after 80 rounds, word by word modulo 2^32 |
| `Sha1.BlockWords` | src/sha1/sha1.c:65-71 | a 64-byte block read as sixteen words, each the big-endian word of four consecutive bytes |
| `Sha1.HashBlocks` | src/sha1/sha1.c:73-75 | hashing whole blocks keeps five state words |
| `Sha1.Zeros` | src/sha1/sha1.c:93 | n zero bytes |
| `Sha1.FipsPad` | src/sha1/sha1.c:88-104 | a message padded as FIPS 180-2 section 5.1.1 prescribes is a whole number of 64-byte blocks |
| `Sha1.PadZeros` | src/sha1/sha1.c:93 | the zero bytes after 0x80 are fewer than 64 and bring the length to 56 modulo 64 |
| `Sha1.PadFits` | src/sha1/sha1.c:88-104 | message, 0x80, the zeros and the 8 length bytes end on a block boundary |
| `Sha1.BigEndianBytes` | src/sha1/sha1.c:106-124 | the digest bytes: four per state word, most significant first |
| `Sha1.Digest` | src/sha1/sha1.c:106-124 | the SHA-1 digest of a message is 20 bytes |
| `Sha1.SetLane` | src/sha1/sha1.c:70 | a byte store into a word of the buffer sets that byte and keeps the other three |
| `Sha1.WordOfLanes` | src/sha1/sha1.c:70 | a word is the big-endian word of its bytes 3, 2, 1, 0 |
| `Sha1.ByteSwap` | src/sha1/sha1.c:114-118 | the four masked shifts reverse the byte order of a word |
| `Sha1.LittleEndianBytes` | src/sha1/sha1.c:123 | the bytes of the state words as they lie in little-endian memory, four per word |
| `Sha1.Swapped` | src/sha1/sha1.c:113-119 | every state word byte-swapped, in place and in order |
| `Sha1.SwappedMemory` | src/sha1/sha1.c:110-123 | the byte-swapped state read from memory is the big-endian layout of the state: the returned address holds the digest |
| `Sha1.ShiftedCount` | src/sha1/sha1.c:99-103 | shifting the count left by 3 then right by 32, 24, 16, 8 is shifting it right by 29, 21, 13, 5; the three top bytes of 8 × count are 0 |
| `Sha1.LowByte` | src/sha1/sha1.c:103 | `byteCount << 3` cut to 32 bits and then to a byte is 8 × count cut to a byte |
| `Sha1.LengthBytesAreFips` | src/sha1/sha1.c:96-103 | for a count below 2^32 the eight length bytes are the 64-bit big-endian bit length FIPS 180-2 section 5.1.1 appends |
| `Sha1.Padded` | src/sha1/sha1.c:88-104 | the stream followed by the padding sha1_pad gives it is a whole number of blocks |
| `Sha1.PadZerosMod` | src/sha1/sha1.c:93 | the zero count depends only on the offset in the block |
| `Sha1.PaddingIsFips` | src/sha1/sha1.c:88-104 | for a message of fewer than 2^32 bytes, all counted, the program's padding is the FIPS 180-2 padding |
| `Sha1.EmptyLanes` | src/sha1/sha1.c:75 | an empty block is consistent with any buffer contents |
| `Sha1.FullBlock` | src/sha1/sha1.c:65-74 | once 64 bytes are stored at offset ^ 3, the buffer holds the block's sixteen big-endian words |
| `Sha1.FullWord` | src/sha1/sha1.c:65-74 | word i of a full buffer is the big-endian word of bytes 4i .. 4i + 3 |
| `Sha1.StoreByte` | src/sha1/sha1.c:70-72 | storing the byte at offset ^ 3 keeps every earlier byte of the block in place |
| `Sha1.StoreLane` | src/sha1/sha1.c:70 | the store into word j keeps that word's earlier bytes |
| `Sha1.ScheduleStep` | src/sha1/sha1.c:38-41 | from round 16 the slots (i+13)&15, (i+8)&15, (i+2)&15 and i&15 hold words i−3, i−8, i−14, i−16 of the schedule, and word i replaces the last of them |
| `Sha1.ScheduleSlots` | src/sha1/sha1.c:39 | the four slot indices of the schedule step are those of words i−3, i−8, i−14, i−16 modulo 16 |
| `Sha1.ModShift` | src/sha1/sha1.c:39 | indices 16 apart share a slot |
| `Sha1.WindowShift` | src/sha1/sha1.c:40 | writing word i over word i−16 keeps the latest sixteen words in the buffer |
| `Sha1.SlotsDiffer` | src/sha1/sha1.c:40 | the sixteen latest words occupy sixteen different slots |
| `Sha1.ScheduleWord` | src/sha1/sha1.c:39-40 | the rotated xor of the four slots is word i of the FIPS 180-2 schedule |
| `Sha1.BlockAppended` | src/sha1/sha1.c:73-75 | compressing a new full block after whole blocks gives the hash of them all |
| `Sha1.OffsetStep` | src/sha1/sha1.c:72-76 | the offset after one more byte is the stream length modulo 64 |
| `Sha1.Gap` | src/sha1/sha1.c:93 | the zeros that bring an offset to 56 are fewer than 64 |
| `Sha1.GapAfterMarker` | src/sha1/sha1.c:92-93 | after the 0x80 byte the zero loop stores exactly the FIPS 180-2 zero count |
| `Sha1.StreamOffset` | src/sha1/sha1.c:72-76 | the offset is the length of everything taken in modulo 64 |
| `Sha1.Context.constructor` | src/sha1/sha1.c:14-22 | a new context is initialised: nothing taken in, count and offset 0 |
| `Sha1.Context.Init` | src/sha1/sha1.c:14-22 | the state is 67452301, efcdab89, 98badcfe, 10325476, c3d2e1f0 (FIPS 180-2 section 5.3.1), byte count and offset 0 |
| `Sha1.Context.HashBlock` | src/sha1/sha1.c:28-63 | the state becomes the FIPS 180-2 compression of the old state with the block in the buffer |
| `Sha1.Context.AllRounds` | src/sha1/sha1.c:32-57 | the loop leaves the working variables of 80 FIPS 180-2 rounds over the block |
| `Sha1.Context.AddUncounted` | src/sha1/sha1.c:65-77 | the byte joins the stream uncounted; the offset moves on and a full block is compressed and leaves offset 0; the context stays consistent (state = hash of whole blocks, buffer = current block) |
| `Sha1.Context.Store` | src/sha1/sha1.c:66-72 | the byte is stored at offset ^ 3 and the offset grows by one |
| `Sha1.Context.HashFullBlock` | src/sha1/sha1.c:73-76 | the full block is compressed into the state and the buffer starts empty at offset 0 |
| `Sha1.Context.WriteByte` | src/sha1/sha1.c:79-82 | the byte is counted (the uint32 count wrapping to 0) and taken into the stream |
| `Sha1.Context.Write` | src/sha1/sha1.c:84-86 | every byte of the data is counted and taken in, in order |
| `Sha1.Context.Pad` | src/sha1/sha1.c:88-104 | 0x80, the zeros up to offset 56 and the eight length bytes are taken in uncounted, ending at offset 0 |
| `Sha1.Context.FillZeros` | src/sha1/sha1.c:93 | zero bytes until the offset is 56 |
| `Sha1.Context.AddLength` | src/sha1/sha1.c:96-103 | the three zero bytes and the five shifted count bytes, in order, ending a block when started at 56 |
| `Sha1.Context.Result` | src/sha1/sha1.c:106-124 | pads and leaves the byte-swapped hash in the state; returns the 20 big-endian digest bytes, which are the SHA-1 digest of the message when every byte taken in was counted and there are fewer than 2^32 of them |
| `Sha1.Context.SwapState` | src/sha1/sha1.c:112-119 | each of the five state words is byte-swapped in place |
| `Sha1.Context.Expand` | src/sha1/sha1.c:38-41 | at round i the buffer slot i & 15 holds schedule word i and the window of the latest sixteen words moves on |
| `Sha1.OneRound` | src/sha1/sha1.c:42-56 | a loop turn after the schedule step is one round of FIPS 180-2 section 6.1.2 step 3 |
| `Sha1.ProgramFIsF` | src/sha1/sha1.c:42-50 | the program's f of each round range is FIPS 180-2's f |
| `Sha1.ChoiceRounds` | src/sha1/sha1.c:42-43 | rounds 0..19 use Ch |
| `Sha1.MajorityRounds` | src/sha1/sha1.c:46-47 | rounds 40..59 use Maj |
| `Sha1.RoundSum` | src/sha1/sha1.c:43-51 | the program's order of additions gives the FIPS 180-2 sum T modulo 2^32 |
| `Sha1.MixSame` | src/sha1/sha1.c:51-56 | the program's updates of a..e give the FIPS 180-2 new working variables |
| `Sha1.ProgramRound` | src/sha1/sha1.c:42-56 | with its form of f, its rotations and its order of additions, a program round is a FIPS 180-2 round |
| `Sha1.Rotl` | src/sha1/sha1.c:24-26 | the definition of sha1_rol32 for shifts from 1 to 31; Sha1.RotlRotates states that it is a rotation |
| `Sha1.LengthBytes` | src/sha1/sha1.c:96-103 | the definition: the eight length bytes the padding appends, three zero bytes and five shifts of the byte count; Sha1.LengthBytesAreFips states that they are the big-endian bit length FIPS 180-2 asks for |
| `Sha1.ProgramF` | src/sha1/sha1.c:42-50 | the definition of f as the program writes it for each round range; Sha1.ProgramFIsF states that it is the standard's f |
| `Sha1.K` | src/sha1/sha1.c:9-12 | the definition of the four round constants, one per twenty rounds; Sha1.ProgramRound states that the program's round uses them |
| `Sha1.F` | src/sha1/sha1.c:42-50 | the independent definition of the standard's logical functions; Sha1.ProgramFIsF ties the program's forms to it |
| `Sha1.W` | src/sha1/sha1.c:38-41 | the independent definition of the standard's message schedule; Sha1.ScheduleWord states that the program's sixteen-word ring holds it |
| `Sha1.Mix` | src/sha1/sha1.c:51-56 | the definition of the register shuffle at the end of a round; Sha1.OneRound and Sha1.ProgramRound state that the program's round performs it |
| `Sha1.Round` | src/sha1/sha1.c:42-56 | the definition of one round of the standard; Sha1.OneRound states that the program's loop body is one, and Sha1.Context.HashBlock that the loop performs eighty |
| `Sha1.Padding` | src/sha1/sha1.c:88-103 | the definition of the bytes sha1_pad feeds in: 0x80, the zeros up to offset 56 of a block, then the length bytes; Sha1.PadFits and Sha1.PaddingIsFips state its properties |
| `Socket.StrLen` | src/socket.c:424 | strlen stops at the first NUL, or at the end of the chunk when it holds none |
| `Socket.StrLenFirstNul` | src/socket.c:424 | no NUL comes before the position strlen returns |
| `Socket.StrLenPrefix` | src/socket.c:424 | strlen does not look past a NUL that follows a prefix |
| `Socket.RunsWellFormed` | src/socket.c:414-429 | every message the framing loop hands to the callback is non-empty and holds no NUL |
| `Socket.StrLenFrame` | src/socket.c:423-428 | a NUL-free message followed by its NUL is cut exactly at that NUL, and the walk resumes right after it |
| `Socket.FramingRoundTrip` | src/socket.c:414-429 | non-empty NUL-free messages sent back to back, each with its NUL, are received as exactly those messages in order |
| `Socket.RunsAppendNul` | src/socket.c:405-410 | a trailing NUL adds no message, so trimming trailing NULs and keeping one changes nothing |
| `Socket.Datas` | src/socket.c:412-428 | the data of each delivered message, in delivery order |
| `Socket.Frame` | src/socket.c:403-430 | the callback receives, in order, the maximal NUL-free runs of the chunk, each from the client socket with data_size equal to its length plus one |
| `Socket.TrimTrailingNuls` | src/socket.c:405-407 | trailing NULs are dropped while more than one byte is left; the byte after the new count is a NUL, the last kept byte is not NUL unless only one is left, and the messages are unchanged |
| `Socket.Deliver` | src/socket.c:414-429 | walking a NUL-terminated prefix skips each NUL and delivers each run up to the next NUL, giving the runs of that prefix from the client socket |
| `Socket.Send` | src/socket.c:262-278 | each call asks for what is still unsent at the offset reached so far, calls go on while that is positive, and the result is the last call's return value, or -1 with no call |
| `Socket.SendCompletes` | src/socket.c:266-275 | when every call moves at least one byte and no more than asked, the bytes sent never exceed the size and the walk takes at most `size` calls |
| `Socket.SendFeedback` | src/socket.c:281-286 | on a C string (no NUL inside): without a feedback client the result is -1 and nothing is sent; otherwise the string and its NUL go through socket_send, the first call asking for all of it |
| `Socket.Runs` | src/socket.c:414-429 | the definition of the framing loop's reading of a chunk: NULs skipped, everything else cut into messages at the next NUL; Socket.RunsWellFormed, Socket.FramingRoundTrip and Socket.Deliver state its properties |
| `Socket.Frames` | src/socket.c:281-286 | the definition of what back-to-back feedback sends put on the wire: each message followed by its NUL; Socket.FramingRoundTrip states that reading it gives back the messages |
| `StatePaths.Digits` | src/state-paths.c:128 | the digits of "%d" for a non-negative number are at least one decimal digit |
| `StatePaths.DigitsRoundTrip` | src/state-paths.c:128 | the digits read back as the number they print |
| `StatePaths.DecimalRoundTrip` | src/state-paths.c:128 | "%d" of any integer, sign included, reads back as that integer, so the label names the instance unambiguously |
| `StatePaths.EffectLabel` | src/state-paths.c:127-128 | "effect-%d" of a 32-bit instance is at most 22 characters, so snprintf into 23 bytes never truncates it |
| `StatePaths.DecimalLength` | src/state-paths.c:128 | a 32-bit integer prints in at most 11 characters |
| `StatePaths.StatePathNulFree` | src/state-paths.c:168-179 | a state path built from NUL-free parts holds no NUL, so strlen of the result is its length |
| `StatePaths.CopyInto` | src/state-paths.c:139-140 | memcpy of a string at an offset leaves the bytes before it and appends the string |
| `StatePaths.WriteEffectDir` | src/state-paths.c:139-143 | the buffer starts with dir, a '/', and the label |
| `StatePaths.GetPluginStateDir` | src/state-paths.c:122-147 | on a C string dir (no NUL inside): NULL for a NULL dir; otherwise a fresh buffer of strlen(dir) + strlen(label) + 2 bytes holding "dir/effect-N" and its NUL |
| `StatePaths.LastSlash` | src/state-paths.c:194 | strrchr's position, when found, lies inside the string |
| `StatePaths.LastSlashIsLast` | src/state-paths.c:194-196 | the position found holds a '/' and no '/' follows it; nothing is found only when the string has no '/' |
| `StatePaths.LastSlashAppend` | src/state-paths.c:194 | the last '/' of a concatenation is the second part's when it has one, and the first part's otherwise |
| `StatePaths.StateDirectory` | src/state-paths.c:191-197 | the directory the loop creates is the instance directory for "." and for a plain file name, and the instance directory plus the path's own directories otherwise |
| `StatePaths.DirUnder` | src/state-paths.c:191-197 | the same cut at the last '/', for any instance directory |
| `StatePaths.TargetsShape` | src/state-paths.c:201-218 | every mkdir target is a prefix of the directory cut just before a '/' or at the end, and they grow strictly in length |
| `StatePaths.TargetsComplete` | src/state-paths.c:201-205 | every prefix that ends just before a '/' at position 1 or later, and the whole directory, is a mkdir target |
| `StatePaths.TargetsEndWithWhole` | src/state-paths.c:201-209 | the last mkdir target is the whole directory |
| `StatePaths.CreateDirs` | src/state-paths.c:199-218 | on success mkdir was called with every target in order and none failed, and the copy is restored; on failure the calls are a prefix of the targets of which only the last failed |
| `StatePaths.MkdirAt` | src/state-paths.c:205-209 | writing a NUL at i makes mkdir see exactly the first i bytes, and changes only that byte |
| `StatePaths.BuildStatePath` | src/state-paths.c:162-179 | the buffer has strlen(dir) + strlen(label) + strlen(path) + 3 bytes and holds the state path and its NUL, ending 3 bytes early for "." |
| `StatePaths.AppendPath` | src/state-paths.c:175-177 | a '/' and the path follow what was written before |
| `StatePaths.Terminate` | src/state-paths.c:179 | a NUL follows the written bytes, which stay as they were |
| `StatePaths.CreateStateDirs` | src/state-paths.c:181-221 | the calls made are a prefix of the targets of the directory to create; success means no call failed, and then every target was created |
| `StatePaths.MakePluginStatePath` | src/state-paths.c:149-224 | NULL with no mkdir call for a NULL dir or path; when the path exists nothing is created; otherwise the result is NULL exactly when some mkdir failed; a result holds the state path and its NUL in a buffer of the size allocated |
| `StatePaths.Decimal` | src/state-paths.c:128 | the definition of "%d": a minus sign for negative numbers, then the digits; StatePaths.DecimalRoundTrip and StatePaths.DecimalLength state its properties |
| `StatePaths.EffectDir` | src/state-paths.c:139-144 | the definition: the directory, a '/', and "effect-" with the instance number; StatePaths.GetPluginStateDir and StatePaths.WriteEffectDir state that the code builds exactly this |
| `StatePaths.StatePath` | src/state-paths.c:168-179 | the definition: the effect directory for ".", otherwise the effect directory, a '/' and the path; StatePaths.StatePathNulFree and StatePaths.MakePluginStatePath state its properties |
| `StatePaths.DirToCreate` | src/state-paths.c:191-197 | the definition: the state path itself for ".", otherwise cut at its last '/' when it has one; StatePaths.DirUnder and StatePaths.CreateStateDirs state its properties |
| `StatePaths.Targets` | src/state-paths.c:201-205 | the definition: every prefix the loop hands to mkdir, in increasing length; StatePaths.TargetsShape, StatePaths.TargetsComplete and StatePaths.TargetsEndWithWhole state its properties |
| `StatePaths.MkdirFails` | src/state-paths.c:207-209 | the definition: mkdir returned non-zero with an errno other than EEXIST; StatePaths.CreateDirs states that the loop stops at the first such target |
| `SysHost.Pos` | src/sys_host.h:294-298 | stepping an index round the ring always lands inside the buffer |
| `SysHost.Used` | src/sys_host.h:281-285 | the number of unread bytes between tail and head is less than the buffer size |
| `SysHost.Ring` | src/sys_host.h:216-221 | the bytes read from an index round the ring, one by one with wrap-around |
| `SysHost.Offset` | src/sys_host.h:303-307 | the distance from one index to another round the ring is less than the buffer size |
| `SysHost.Overlay` | src/sys_host.h:291-322 | writing a frame round the ring keeps the buffer size |
| `SysHost.WriteSpec` | src/sys_host.h:251-327 | the write succeeds exactly when the message is not empty on the server, is shorter than the buffer, and its frame fits in the free space (one byte always kept free); a failed write changes nothing, and a successful one adds exactly the frame's length to the unread bytes |
| `SysHost.RoomIsFree` | src/sys_host.h:283-285 | the free space the program computes with `wrap` is the buffer size minus the unread bytes |
| `SysHost.WriteAppends` | src/sys_host.h:291-324 | after a successful write the unread bytes are the old unread bytes followed by the frame |
| `SysHost.ScanFrom` | src/sys_host.h:216-235 | a message is found only at a NUL reached before head, with no NUL before it |
| `SysHost.SkipInvalid` | src/sys_host.h:198-201 | an invalid first byte is skipped: the tail moves one place round the ring |
| `SysHost.SkipInvalidAsWrittenLeavesBuffer` | src/sys_host.h:200 | as written, skipping an invalid byte at the last index sets the tail to the buffer size, one past the end, where the wrapped step gives 0 |
| `SysHost.ReadSpec` | src/sys_host.h:158-247 | an empty channel fails and keeps the tail; an event type the reader does not accept fails and skips that byte; a successful read returns an accepted event type equal to the first byte and a message with no NUL |
| `SysHost.ReadFrame` | src/sys_host.h:158-247 | a frame the peer wrote, lying at the tail, is read back with its event type, page, subpage and message, and the tail moves past it |
| `SysHost.FrameLayout` | src/sys_host.h:291-322 | a written frame holds the event type, then page and subpage from a client, then the message and its NUL, before head |
| `SysHost.ScanStart` | src/sys_host.h:205-214 | the message starts one place after the event type, or three for the server reading page and subpage |
| `SysHost.ReadSpecFound` | src/sys_host.h:216-246 | when the scan finds a NUL the read returns the bytes before it and the tail moves one past it |
| `SysHost.ScanFinds` | src/sys_host.h:216-235 | the scan stops at the first NUL when it comes before head |
| `SysHost.WriteThenRead` | src/sys_host.h:158-327 | on an empty channel, what one side writes the other side reads back, event type, message, and page and subpage when the client wrote, leaving the channel empty again |
| `SysHost.WriteRun` | src/sys_host.h:309-321 | each memcpy extends the part of the frame already in the ring |
| `SysHost.CopyBytes` | src/sys_host.h:312-321 | memcpy places the bytes at the offset and changes nothing else |
| `SysHost.ScanMessage` | src/sys_host.h:216-235 | the read loop finds a NUL exactly when the scan does, and then returns the bytes before it and the index past it |
| `SysHost.WriteHeader` | src/sys_host.h:291-300 | the event type, and the page and subpage from a client, are the first bytes of the frame in the ring |
| `SysHost.WritePayload` | src/sys_host.h:303-322 | the message and its NUL complete the frame in the ring, split at the end of the buffer when it wraps, and the new head is one past it |
| `SysHost.WrittenAll` | src/sys_host.h:291-322 | once every byte of the frame is written the buffer is the old buffer with the frame laid over it from head |
| `SysHost.Channel.constructor` | src/sys_host.h:158-327 | a fresh channel is zeroed with head and tail at 0, so it holds nothing |
| `SysHost.Channel.Write` | src/sys_host.h:251-327 | sys_serial_write changes the buffer and head as the write specification says and leaves the tail alone |
| `SysHost.Channel.Read` | src/sys_host.h:158-247 | sys_serial_read moves only the tail, as the read specification says, with the invalid-byte skip wrapped round the ring |
| `SysHost.Accepts` | src/sys_host.h:176-202 | the definition: the server reads only the event types a client sends, and a client only those the server sends; SysHost.ReadSpec and SysHost.Channel.Read state what happens to a byte it refuses |
| `SysHost.Framed` | src/sys_host.h:291-322 | the definition of a written message: the type byte, page and subpage when a client writes, the text and a NUL; SysHost.FrameLayout and SysHost.WriteThenRead state its properties |
| `SysHost.Room` | src/sys_host.h:281-285 | the definition of the free space the writer computes from head and tail; SysHost.RoomIsFree states that it is the buffer size minus the unread bytes |
| `SysHost.SkipInvalidAsWritten` | src/sys_host.h:200 | the definition of the tail the code stores after an invalid byte, tail + 1 without wrapping; SysHost.SkipInvalidAsWrittenLeavesBuffer states the finding about it |
| `SysHost.Peer` | src/sys_host.h:176-202 | the definition: the side at the other end of the channel; SysHost.WriteThenRead states that what one side writes the other reads |
| `SysHost.HeaderSize` | src/sys_host.h:291-300 | the definition: one type byte, plus page and subpage when a client writes; SysHost.FrameLayout states its use |
| `Txt2CVar.Basename` | utils/txt2cvar.py:12 | os.path.basename is the longest suffix without '/', preceded by a '/' when shorter than the path |
| `Txt2CVar.HexChar` | utils/txt2cvar.py:21 | each digit value below 16 prints as an upper-case hex digit of that value |
| `Txt2CVar.HexDigits` | utils/txt2cvar.py:21 | "%X" prints at least one hex digit |
| `Txt2CVar.Hex2` | utils/txt2cvar.py:21 | "%02X" prints only hex digits |
| `Txt2CVar.Hex2Value` | utils/txt2cvar.py:21 | "%02X" reads back as the number printed |
| `Txt2CVar.HexDigitsValue` | utils/txt2cvar.py:21 | "%X" reads back as the number printed |
| `Txt2CVar.Hex2Length` | utils/txt2cvar.py:21 | "%02X" is at least two digits, and exactly two for a code of at most 0xFF |
| `Txt2CVar.Run` | utils/txt2cvar.py:6-27 | with fewer than two arguments the usage line is printed and the exit status is 1; otherwise the listing for the name and the concatenated lines is printed with status 0 |
| `Txt2CVar.EmitLine` | utils/txt2cvar.py:19-24 | the inner loop extends the output by the entries of one line, continuing the count of characters across lines |
| `Txt2CVar.EmitLines` | utils/txt2cvar.py:18-24 | the outer loop gives the header followed by the entries of every character of every line, in order |
| `Txt2CVar.EmitChar` | utils/txt2cvar.py:20-24 | one character adds its entry, then a line break when it is the 16th, 32nd, ... character of the file |
| `Txt2CVar.BodyAppend` | utils/txt2cvar.py:20-24 | one more character adds exactly its entry, with a line break after every 16th character overall |
| `Txt2CVar.BodyLineBreaks` | utils/txt2cvar.py:22-24 | the entries hold one line break per completed run of 16 characters |
| `Txt2CVar.EntryLineBreaks` | utils/txt2cvar.py:21 | an entry holds no line break of its own |
| `Txt2CVar.HexRun` | utils/txt2cvar.py:21 | the leading hex digits of a text, up to the first non-digit |
| `Txt2CVar.HexRunStops` | utils/txt2cvar.py:21 | the run of hex digits of an entry stops at its comma |
| `Txt2CVar.Codes` | utils/txt2cvar.py:21 | the character codes of the text, one per character |
| `Txt2CVar.ListingElements` | utils/txt2cvar.py:17-26 | the C array the listing declares under the variable name holds the code of every character, in order, then a terminating 0 |
| `Txt2CVar.BodyElements` | utils/txt2cvar.py:19-26 | the entries followed by "0x00" parse back as the character codes and a final 0 |
| `Txt2CVar.ElementsLast` | utils/txt2cvar.py:26 | the closing "0x00" is a single 0 element |
| `Txt2CVar.ElementsEntry` | utils/txt2cvar.py:21-24 | one entry before further elements adds the character's code in front of them |
| `Txt2CVar.ElementsStep` | utils/txt2cvar.py:21-24 | "0x" digits "," and an optional line break parse as the digits' value followed by the elements after them |
| `Txt2CVar.Body` | utils/txt2cvar.py:19-24 | the definition of the entries for the characters: "0xHH," each, a line break after every 16th; Txt2CVar.BodyAppend, Txt2CVar.BodyLineBreaks and Txt2CVar.BodyElements state its properties |
| `Txt2CVar.Listing` | utils/txt2cvar.py:17-26 | the definition of the whole output: header, entries and the closing "0x00" line; Txt2CVar.Run states that the script builds it, and Txt2CVar.ListingElements what array it declares |
| `Txt2CVar.VarName` | utils/txt2cvar.py:12-15 | the definition: the second argument when given, otherwise the file's base name; Txt2CVar.Run states that the listing is declared under it |
| `Txt2CVar.Header` | utils/txt2cvar.py:17 | the definition of the declaration line "const char NAME[] = {"; Txt2CVar.ListingElements states what array the listing then declares |
| `Txt2CVar.Entry` | utils/txt2cvar.py:21 | the definition of '0x%02X,' for one character; Txt2CVar.ElementsEntry and Txt2CVar.Hex2Value state that it reads back as the character's code |
| `Txt2CVar.LineBreak` | utils/txt2cvar.py:22-24 | the definition: a line break after every 16th character; Txt2CVar.BodyLineBreaks counts them |
| `Txt2CVar.Item` | utils/txt2cvar.py:21-24 | the definition of what one character adds to the output: its entry, then a line break when it is the 16th, 32nd, ...; Txt2CVar.BodyAppend states its use |
| `Utils.Split` | src/utils.c:47-63 | cutting a string at every separator gives at least one token |
| `Utils.Extend` | src/utils.c:49-61 | one more character either starts a new token or extends the last one, and there is still at least one token |
| `Utils.SplitCount` | src/utils.c:36-42 | there is one token more than there are separators |
| `Utils.SplitHasNoSeparator` | src/utils.c:51-57 | no token holds the separator |
| `Utils.JoinSplit` | src/utils.c:47-63 | the tokens joined with the separator give back the string |
| `Utils.JoinNewToken` | src/utils.c:51-56 | starting an empty token adds one separator to the joined string |
| `Utils.JoinLongerToken` | src/utils.c:59-60 | extending the last token adds that character to the joined string |
| `Utils.SplitJoin` | src/utils.c:47-63 | splitting tokens that hold no separator, after joining them, gives back exactly those tokens |
| `Utils.SplitJoinStep` | src/utils.c:51-57 | a separator-free token joined after others splits off as a token of its own |
| `Utils.SplitNoSeparator` | src/utils.c:63 | a string without the separator is one token, itself |
| `Utils.SplitAppend` | src/utils.c:51-63 | a separator followed by a separator-free tail ends the split with that tail as the last token |
| `Utils.StringSplit` | src/utils.c:23-66 | on a C string (no NUL inside): a NULL string gives count 0 and no array; otherwise an array of 1 + (number of separators) tokens, the string cut at each separator, in order |
| `Utils.FillTokens` | src/utils.c:47-63 | the fill loop puts the tokens of the string, in order, into an array of the counted size |
| `Utils.CountTokens` | src/utils.c:36-42 | the count loop gives one more than the number of separators |
| `Utils.SplitStep` | src/utils.c:49-61 | one step of the fill loop: a separator closes the current token and starts an empty one, any other character extends the current token |
| `Utils.TokenBound` | src/utils.c:54-55 | every token index the fill loop writes at a separator is inside the array the count loop sized |
| `Utils.OccurrencesConcat` | src/utils.c:38-42 | the separators of two strings put together are those of each |
| `Utils.Join` | src/utils.c:47-63 | the definition of the inverse of splitting, the tokens with the separator between each two; Utils.JoinSplit and Utils.SplitJoin state the round trips |

## Left out

- `free_str_array` (src/utils.c:68-72) only frees memory. It reads `data[0]` before it checks `data`, so a NULL result of `string_split` must not be passed to it. Memory release is outside the model.
- `protocol_remove_commands` frees the table, and the verbose printing of `protocol_parse` is console output; neither is modelled.
- Effects: the lilv and JACK plumbing is left out, because it is foreign code. This covers port registration and buffer allocation in `effects_add`, the disconnection of capture ports in "remove all", `FreeFeatures`, `effects_init`/`effects_finish`, `effects_preset_save`/`effects_preset_show`, `effects_set_property`, `effects_get_parameter_info` and the CPU load. Their outcomes are parameters of the model.
- C strings hold no NUL before their terminator, so `Utils.StringSplit`, `Protocol.CommandTable.AddCommand`, `Protocol.CommandTable.Parse`, `Socket.SendFeedback`, `StatePaths.GetPluginStateDir` and `StatePaths.MakePluginStatePath` require NUL-free strings. `strlen` would stop at an embedded NUL; the model does not cover that.
- Out-of-memory paths are left out: `malloc` and `strdup` are taken to succeed in `string_split`, `GetPluginStateDir`, `MakePluginStatePath` and the postponed-event caches. The pool's own `malloc` in `rtsafe_memory_pool_create` and the node allocations keep their failure paths.
- Floating point is not modelled: parameter values, samples and gains are reals. Float formatting (`%f` in feedback messages), float rounding and `sqrt` are left out. `Gate.Step` takes sqrt(k * k) as |k|.
- `floats_differ_enough` in `monitor_check_condition` is a parameter.
- `gate_update` only converts units in floating point and is not modelled.
- Shared memory, `mmap`, `sem_post` and `sys_serial_open`/`sys_serial_close` are operating-system calls and are left out. Both build modes of src/sys_host.h are modelled through the `Side` parameter.
- Socket connection handling (`socket_start`, `socket_finish`, accept, the reassembly of oversized messages at src/socket.c:351-397) is socket I/O. Bytes of a received chunk are `char`s.
- `SysHost.Channel.Read` and `SysHost.ReadSpec` skip an invalid first byte with the wrapped `SysHost.SkipInvalid`, not with the `tail + 1` of src/sys_host.h:200. The code as written is `SysHost.SkipInvalidAsWritten`; see "## Findings".
- `StatePaths.CreateDirs` states the array only on success, because on failure the source frees the copy. `RecursivelyRemovePluginPath` is an `nftw` call and is left out.
- The rtmempool pool name and its mutex, and the mutex around the shared event list, are concurrency only. `PostPonedEventsThread`, `ProcessPlugin*` and `main` of tests/rtmempool-test.c are a thread harness; their operations are modelled sequentially.
- SHA-1: the big-endian branch, the `SHA1TEST` self-test and the "abc" test vector are left out. Evaluating 80 rounds on a concrete block is beyond what the verifier can unfold within its resource limit.
- `Sha1.RotlRotates` covers only the shifts the program uses (1, 5 and 30), not every shift.
- The `MEMSET_WAIT_OP` barriers of src/mod-memset.h order memory only and have no functional effect.
- `Memset.ModCalloc` takes the success of `malloc` as a flag and its block's address as a parameter.
- Txt2CVar: opening and reading the file, decoding and newline translation are Python I/O. The input is the list `readlines` returns. The exception `open` raises for a missing file is not modelled.
- `PostponedEvents.Postponed.Post` requires events of the parameter and output kinds to carry a symbol. The flush would pass a NULL symbol to `strncpy` (tests/rtmempool-test.c:207 and 225), so those events are outside the model.
- JACK internal clients, the worker thread, the completer, the CLI in src/mod-host.c, the compressor and the beat-clock filter are outside the modelled core.

## Findings

| source | as written | input that shows it | evidently intended | confidence | as-written member | corrected member |
|---|---|---|---|---|---|---|
| src/sys_host.h:200 | an invalid first byte is skipped with `tail = tail + 1`, without the wrap-around every other index step has | an invalid event type at index N − 1 (8151) sets the tail to N, one past the buffer, and the next read indexes `buffer[N]` | the tail wraps to 0, as at lines 208-209 and 218-219 | not executed | `SysHost.SkipInvalidAsWritten` with `SysHost.SkipInvalidAsWrittenLeavesBuffer` | `SysHost.SkipInvalid`, used by `SysHost.Channel.Read` |

// Model of the instance registry of src/effects.c: the fixed table of effect slots, the
// validation and failure paths of effects_add, effects_remove, effects_bypass, the
// parameter set/get rules with their clamping, preset lookup and loading, monitors, and
// the connect/disconnect retry rules. LV2 and JACK are abstract: an instance is its input
// control ports and its preset URIs, and every foreign call is a parameter.

module Effects {
  import opened Utils
  import Monitor

  const MAX_INSTANCES: int := 10000
  /** effects_remove's "every instance" id; it stops ten short of MAX_INSTANCES. */
  const REMOVE_ALL: int := -1
  const REMOVE_ALL_END: int := MAX_INSTANCES - 10
  /** FindPreset's hard-coded failure code. */
  const PRESET_NOT_FOUND: int := -400
  /** errno value jack_connect reports for a connection that already exists. */
  const EEXIST: int := 17

  const SUCCESS: int := 0
  const ERR_INSTANCE_INVALID: int := -1
  const ERR_INSTANCE_ALREADY_EXISTS: int := -2
  const ERR_INSTANCE_NON_EXISTS: int := -3
  const ERR_LV2_INVALID_URI: int := -101
  const ERR_LV2_INSTANTIATION: int := -102
  const ERR_LV2_INVALID_PARAM_SYMBOL: int := -103
  const ERR_LV2_INVALID_PRESET_URI: int := -104
  const ERR_LV2_CANT_LOAD_STATE: int := -105
  const ERR_JACK_CLIENT_CREATION: int := -201
  const ERR_JACK_CLIENT_ACTIVATION: int := -202
  const ERR_JACK_CLIENT_DEACTIVATION: int := -203
  const ERR_JACK_PORT_REGISTER: int := -204
  const ERR_JACK_PORT_CONNECTION: int := -205
  const ERR_JACK_PORT_DISCONNECTION: int := -206
  const ERR_MEMORY_ALLOCATION: int := -901

  /** An input control port: its symbol, the plugin's declared bounds (None when the
      bound node is not a float, int or bool), whether it carries the sampleRate
      property, and the value in its buffer. */
  datatype ControlPort = ControlPort(symbol: string, minimum: Option<real>, maximum: Option<real>,
                                     sampleRate: bool, value: real)

  datatype MonitorEntry = MonitorEntry(portId: int, op: int, value: real, lastNotified: real)

  /** One entry of g_effects. `live` is jack_client != NULL. */
  datatype Slot = Slot(live: bool, ports: seq<ControlPort>, presets: seq<string>,
                       bypass: int, monitors: seq<MonitorEntry>)

  /** What the plugin world knows about a URI. */
  datatype Plugin = Plugin(ports: seq<ControlPort>, presets: seq<string>)

  datatype PortSetup = PortsReady | PortAllocationFails | PortRegistrationFails

  /** The outcomes of the foreign steps of effects_add: jack_client_open, the plugin
      lookup before and after reloading the world, instantiation, port allocation and
      registration, and jack_activate. */
  datatype Loader = Loader(clientOpens: bool, catalogue: string -> Option<Plugin>,
                           reloaded: string -> Option<Plugin>, instantiates: bool,
                           portSetup: PortSetup, activates: bool)

  /** One (symbol, value) pair that a preset state restores. */
  datatype StateValue = StateValue(symbol: string, value: real)

  /** INSTANCE_IS_VALID. */
  predicate InstanceIsValid(id: int)
  {
    0 <= id < MAX_INSTANCES
  }

  /** The ids effects_remove visits, as a half-open range. */
  function RemoveRange(id: int): (int, int)
  {
    if id == REMOVE_ALL then (0, REMOVE_ALL_END) else (id, id + 1)
  }

  /** A bound that is not numeric reads as 0.0. */
  function NumericOrZero(bound: Option<real>): real
  {
    if bound.Some? then bound.value else 0.0
  }

  /** The [min, max] a port's value is clamped to; sampleRate ports scale both bounds. */
  function PortRange(port: ControlPort, sampleRate: real): (real, real)
  {
    var lo := NumericOrZero(port.minimum);
    var hi := NumericOrZero(port.maximum);
    if port.sampleRate then (Scaled(lo, sampleRate), Scaled(hi, sampleRate)) else (lo, hi)
  }

  /** min *= g_sample_rate, max *= g_sample_rate. */
  function Scaled(bound: real, sampleRate: real): real
  {
    bound * sampleRate
  }

  /** The clamp of effects_set_parameter and effects_get_parameter: the upper bound is
      tested first. */
  function Clamp(v: real, lo: real, hi: real): (r: real)
    ensures lo <= hi ==> lo <= r <= hi
    ensures lo <= v <= hi ==> r == v
    ensures v > hi ==> r == hi
    ensures v <= hi && v < lo ==> r == lo
  {
    if v > hi then hi else if v < lo then lo else v
  }

  /** Clamping twice is clamping once, for a well-formed range. */
  lemma ClampIdempotent(v: real, lo: real, hi: real)
    requires lo <= hi
    ensures Clamp(Clamp(v, lo, hi), lo, hi) == Clamp(v, lo, hi)
  {
  }

  /** The first position of `x` in `s`. */
  function IndexOf<T(==)>(s: seq<T>, x: T): (r: Option<nat>)
    ensures r.Some? ==> r.value < |s| && s[r.value] == x && forall k :: 0 <= k < r.value ==> s[k] != x
    ensures r.None? <==> x !in s
  {
    if |s| == 0 then None
    else if s[0] == x then Some(0)
    else
      var t := IndexOf(s[1..], x);
      assert forall k :: 1 <= k < |s| ==> s[k] == s[1..][k - 1];
      if t.Some? then Some(t.value + 1) else None
  }

  function Symbols(ports: seq<ControlPort>): (r: seq<string>)
    ensures |r| == |ports| && forall i :: 0 <= i < |ports| ==> r[i] == ports[i].symbol
  {
    seq(|ports|, i requires 0 <= i < |ports| => ports[i].symbol)
  }

  /** FindEffectPortBySymbol: the first input control port with that symbol. */
  method FindEffectPortBySymbol(ports: seq<ControlPort>, symbol: string) returns (r: Option<nat>)
    ensures r == IndexOf(Symbols(ports), symbol)
  {
    var i := 0;
    while i < |ports|
      invariant 0 <= i <= |ports|
      invariant forall k :: 0 <= k < i ==> ports[k].symbol != symbol
    {
      if ports[i].symbol == symbol {
        IndexOfFirst(Symbols(ports), symbol, i);
        return Some(i);
      }
      i := i + 1;
    }
    return None;
  }

  /** FindPreset: SUCCESS and the preset's position, or -400. */
  method FindPreset(presets: seq<string>, uri: string) returns (r: int, preset: Option<nat>)
    ensures preset == IndexOf(presets, uri)
    ensures r == (if uri in presets then SUCCESS else PRESET_NOT_FOUND)
  {
    var i := 0;
    while i < |presets|
      invariant 0 <= i <= |presets|
      invariant forall k :: 0 <= k < i ==> presets[k] != uri
    {
      if presets[i] == uri {
        IndexOfFirst(presets, uri, i);
        return SUCCESS, Some(i);
      }
      i := i + 1;
    }
    return PRESET_NOT_FOUND, None;
  }

  /** A position holding `x` with no `x` before it is the one IndexOf names. */
  lemma {:induction false} IndexOfFirst<T>(s: seq<T>, x: T, i: nat)
    requires i < |s| && s[i] == x && forall k :: 0 <= k < i ==> s[k] != x
    ensures IndexOf(s, x) == Some(i)
  {
    if i > 0 {
      assert s[0] != x;
      forall k | 0 <= k < i - 1 ensures s[1..][k] != x {
        assert s[1..][k] == s[k + 1];
      }
      IndexOfFirst(s[1..], x, i - 1);
    }
  }

  /** The value a set stores into port `i`. */
  function SetPortValue(ports: seq<ControlPort>, i: nat, v: real, sampleRate: real): (r: seq<ControlPort>)
    requires i < |ports|
    ensures |r| == |ports| && Symbols(r) == Symbols(ports)
    ensures var (lo, hi) := PortRange(ports[i], sampleRate); r[i].value == Clamp(v, lo, hi)
    ensures forall k :: 0 <= k < |ports| && k != i ==> r[k] == ports[k]
    ensures forall k :: 0 <= k < |ports| ==> r[k].(value := ports[k].value) == ports[k]
  {
    var (lo, hi) := PortRange(ports[i], sampleRate);
    ports[i := ports[i].(value := Clamp(v, lo, hi))]
  }

  /** effects_set_parameter on the ports of a live instance: the first port with the
      symbol gets the clamped value; an unknown symbol changes nothing. */
  function SetBySymbol(ports: seq<ControlPort>, symbol: string, v: real, sampleRate: real): seq<ControlPort>
  {
    match IndexOf(Symbols(ports), symbol)
    case None => ports
    case Some(i) => SetPortValue(ports, i, v, sampleRate)
  }

  /** The ports after a preset state's pairs have been applied, in order, through
      effects_set_parameter. */
  function ApplyState(ports: seq<ControlPort>, state: seq<StateValue>, sampleRate: real): seq<ControlPort>
  {
    if |state| == 0 then ports
    else
      var last := state[|state| - 1];
      SetBySymbol(ApplyState(ports, state[..|state| - 1], sampleRate), last.symbol, last.value, sampleRate)
  }

  /** Every port's range is non-empty. */
  predicate WellFormed(ports: seq<ControlPort>, sampleRate: real)
  {
    forall k :: 0 <= k < |ports| ==> PortRange(ports[k], sampleRate).0 <= PortRange(ports[k], sampleRate).1
  }

  /** Every port's value lies in its range. */
  predicate AllInRange(ports: seq<ControlPort>, sampleRate: real)
  {
    forall k :: 0 <= k < |ports| ==>
      PortRange(ports[k], sampleRate).0 <= ports[k].value <= PortRange(ports[k], sampleRate).1
  }

  /** Loading a preset changes values only: the port list, symbols and ranges stay. */
  lemma {:induction false} ApplyStateKeepsPorts(ports: seq<ControlPort>, state: seq<StateValue>, sampleRate: real)
    ensures |ApplyState(ports, state, sampleRate)| == |ports|
    ensures forall k :: 0 <= k < |ports| ==>
              ApplyState(ports, state, sampleRate)[k].(value := ports[k].value) == ports[k]
  {
    if |state| > 0 {
      var last := state[|state| - 1];
      ApplyStateKeepsPorts(ports, state[..|state| - 1], sampleRate);
    }
  }

  /** A port whose symbol no pair names keeps its value through a preset load. */
  lemma {:induction false} ApplyStateUntouched(ports: seq<ControlPort>, state: seq<StateValue>, sampleRate: real, k: nat)
    requires k < |ports|
    requires forall j :: 0 <= j < |state| ==> state[j].symbol != ports[k].symbol
    ensures k < |ApplyState(ports, state, sampleRate)| && ApplyState(ports, state, sampleRate)[k] == ports[k]
  {
    if |state| > 0 {
      var init := state[..|state| - 1];
      var last := state[|state| - 1];
      ApplyStateUntouched(ports, init, sampleRate, k);
      ApplyStateKeepsPorts(ports, init, sampleRate);
      var mid := ApplyState(ports, init, sampleRate);
      var syms := Symbols(mid);
      match IndexOf(syms, last.symbol)
      case None =>
      case Some(i) =>
        assert syms[i] == last.symbol && syms[k] == ports[k].symbol;
    }
  }

  /** With well-formed ranges, values that start in range stay in range through a preset
      load. */
  lemma {:induction false} ApplyStateInRange(ports: seq<ControlPort>, state: seq<StateValue>, sampleRate: real)
    requires WellFormed(ports, sampleRate) && AllInRange(ports, sampleRate)
    ensures WellFormed(ApplyState(ports, state, sampleRate), sampleRate)
    ensures AllInRange(ApplyState(ports, state, sampleRate), sampleRate)
  {
    if |state| > 0 {
      var init := state[..|state| - 1];
      var last := state[|state| - 1];
      ApplyStateInRange(ports, init, sampleRate);
      var mid := ApplyState(ports, init, sampleRate);
      match IndexOf(Symbols(mid), last.symbol)
      case None =>
      case Some(i) =>
        var r := SetPortValue(mid, i, last.value, sampleRate);
        forall k | 0 <= k < |r|
          ensures PortRange(r[k], sampleRate) == PortRange(mid[k], sampleRate)
        {
          assert r[k].(value := mid[k].value) == mid[k];
          assert r[k] == mid[k].(value := r[k].value);
          PortRangeIgnoresValue(mid[k], r[k].value, sampleRate);
        }
    }
  }

  lemma PortRangeIgnoresValue(port: ControlPort, v: real, sampleRate: real)
    ensures PortRange(port.(value := v), sampleRate) == PortRange(port, sampleRate)
  {
  }

  /** The string of effects_monitor_parameter's operator, at its operator code. */
  const OP_NAMES: seq<string> := [">", ">=", "<", "<=", "==", "!="]

  /** The operator mapping of effects_monitor_parameter: -1 for an unknown string. */
  function MonitorOp(op: string): (r: int)
    ensures r == -1 <==> op !in OP_NAMES
    ensures r != -1 ==> 0 <= r < |OP_NAMES| && OP_NAMES[r] == op
  {
    if op == ">" then Monitor.OP_GT
    else if op == ">=" then Monitor.OP_GE
    else if op == "<" then Monitor.OP_LT
    else if op == "<=" then Monitor.OP_LE
    else if op == "==" then Monitor.OP_EQ
    else if op == "!=" then Monitor.OP_NE
    else -1
  }

  /** A connection that is made or already exists. */
  predicate Accepted(ret: int)
  {
    ret == 0 || ret == EEXIST
  }

  /** effects_connect: try A to B, then B to A unless the first was accepted; an existing
      connection counts as success. `jack` stands for jack_connect. */
  function Connect(portA: string, portB: string, jack: (string, string) -> int): (r: int)
    ensures r == SUCCESS || r == ERR_JACK_PORT_CONNECTION
    ensures r == SUCCESS <==> Accepted(jack(portA, portB)) || Accepted(jack(portB, portA))
  {
    var first := jack(portA, portB);
    var ret := if first != 0 && first != EEXIST then jack(portB, portA) else first;
    var ret' := if ret == EEXIST then 0 else ret;
    if ret' != 0 then ERR_JACK_PORT_CONNECTION else ret'
  }

  /** effects_disconnect: fails only when both orders fail. `jack` stands for
      jack_disconnect. */
  function Disconnect(portA: string, portB: string, jack: (string, string) -> int): (r: int)
    ensures r == SUCCESS || r == ERR_JACK_PORT_DISCONNECTION
    ensures r == SUCCESS <==> jack(portA, portB) == 0 || jack(portB, portA) == 0
  {
    var first := jack(portA, portB);
    var ret := if first != 0 then jack(portB, portA) else first;
    if ret != 0 then ERR_JACK_PORT_DISCONNECTION else ret
  }

  /** The order of the two port names does not matter to either call. */
  lemma ConnectionsSymmetric(portA: string, portB: string, jack: (string, string) -> int)
    ensures Connect(portA, portB, jack) == Connect(portB, portA, jack)
    ensures Disconnect(portA, portB, jack) == Disconnect(portB, portA, jack)
  {
  }

  /** Repeating a connect that JACK reports as existing succeeds. */
  lemma ConnectExisting(portA: string, portB: string, jack: (string, string) -> int)
    requires jack(portA, portB) == EEXIST
    ensures Connect(portA, portB, jack) == SUCCESS
  {
  }

  /** The plugin effects_add finds: the loaded world first, then the reloaded one. */
  function FindPlugin(uri: string, env: Loader): Option<Plugin>
  {
    if env.catalogue(uri).Some? then env.catalogue(uri) else env.reloaded(uri)
  }

  /** The error effects_add reports for a valid, free id, or SUCCESS: the first foreign
      step that fails decides. */
  function AddError(uri: string, env: Loader): int
  {
    if !env.clientOpens then ERR_JACK_CLIENT_CREATION
    else if FindPlugin(uri, env).None? then ERR_LV2_INVALID_URI
    else if !env.instantiates then ERR_LV2_INSTANTIATION
    else if env.portSetup == PortAllocationFails then ERR_MEMORY_ALLOCATION
    else if env.portSetup == PortRegistrationFails then ERR_JACK_PORT_REGISTER
    else if !env.activates then ERR_JACK_CLIENT_ACTIVATION
    else SUCCESS
  }

  /** g_effects and the static cache of effects_set_parameter. */
  class Host {
    var slots: array<Slot>
    var sampleRate: real
    var lastEffectId: int
    var lastSymbol: Option<string>
    var lastBuffer: Option<(int, nat)>
    var lastMin: real
    var lastMax: real

    /** The table has MAX_INSTANCES slots, and last_effect_id keeps its initial -1: it
        is assigned only inside the branch that needs it to equal a live id. */
    ghost predicate Valid()
      reads this
    {
      slots.Length == MAX_INSTANCES && lastEffectId == -1
    }

    /** The zero-initialised static table: no slot is live. */
    constructor (sampleRate: real)
      ensures Valid() && fresh(slots) && this.sampleRate == sampleRate
      ensures forall k :: 0 <= k < MAX_INSTANCES ==> !slots[k].live
      ensures lastSymbol.None? && lastBuffer.None?
    {
      slots := new Slot[MAX_INSTANCES](_ => Slot(false, [], [], 0, []));
      this.sampleRate := sampleRate;
      lastEffectId := -1;
      lastSymbol := None;
      lastBuffer := None;
      lastMin := 0.0;
      lastMax := 0.0;
    }

    /** InstanceExist. */
    predicate InstanceExist(id: int)
      reads this, slots
      requires Valid()
    {
      InstanceIsValid(id) && slots[id].live
    }

    /** InstanceDelete: clears jack_client of an in-range id and nothing else. */
    method InstanceDelete(id: int)
      requires Valid()
      modifies slots
      ensures Valid()
      ensures InstanceIsValid(id) ==> slots[..] == old(slots[..])[id := old(slots[id]).(live := false)]
      ensures !InstanceIsValid(id) ==> slots[..] == old(slots[..])
    {
      if InstanceIsValid(id) {
        slots[id] := slots[id].(live := false);
      }
    }

    /** effects_remove. `deactivate(j)` is whether jack_deactivate succeeds for instance
        j. Every live id of the range is deleted in increasing order; the first failing
        deactivate stops the walk. */
    method Remove(id: int, deactivate: int -> bool) returns (r: int, ghost failedAt: int)
      requires Valid()
      modifies slots
      ensures Valid()
      ensures r == SUCCESS || r == ERR_JACK_CLIENT_DEACTIVATION
      ensures var (lo, hi) := RemoveRange(id);
        (forall k :: 0 <= k < MAX_INSTANCES && !(lo <= k < hi) ==> slots[k] == old(slots[k])) &&
        (r == SUCCESS <==> forall k :: lo <= k < hi && InstanceIsValid(k) && old(slots[k]).live ==> deactivate(k)) &&
        (r == SUCCESS ==> forall k :: lo <= k < hi && InstanceIsValid(k) ==> slots[k] == old(slots[k]).(live := false)) &&
        (r != SUCCESS ==>
          lo <= failedAt < hi && InstanceIsValid(failedAt) && old(slots[failedAt]).live && !deactivate(failedAt) &&
          (forall k :: lo <= k < failedAt && InstanceIsValid(k) ==> slots[k] == old(slots[k]).(live := false)) &&
          (forall k :: failedAt <= k < hi && InstanceIsValid(k) ==> slots[k] == old(slots[k])))
    {
      failedAt := 0;
      var (start, end) := RemoveRange(id);
      var j := start;
      while j < end
        invariant start <= j <= end || (start >= end && j == start)
        invariant forall k :: 0 <= k < MAX_INSTANCES && !(start <= k < j) ==> slots[k] == old(slots[k])
        invariant forall k :: start <= k < j && InstanceIsValid(k) ==> slots[k] == old(slots[k]).(live := false)
        invariant forall k :: start <= k < j && InstanceIsValid(k) && old(slots[k]).live ==> deactivate(k)
      {
        if InstanceExist(j) {
          if !deactivate(j) {
            failedAt := j;
            return ERR_JACK_CLIENT_DEACTIVATION, failedAt;
          }
          InstanceDelete(j);
        }
        j := j + 1;
      }
      r := SUCCESS;
    }

    /** effects_add. Validation rejects before any slot is touched; after that, a failing
        step runs effects_remove on the id, which leaves it live only when the client
        was opened and jack_deactivate then fails. */
    method Add(uri: Option<string>, instance: int, env: Loader, deactivate: int -> bool) returns (r: int)
      requires Valid()
      modifies slots
      ensures Valid()
      ensures uri.None? ==> r == ERR_LV2_INVALID_URI && slots[..] == old(slots[..])
      ensures uri.Some? && !InstanceIsValid(instance) ==> r == ERR_INSTANCE_INVALID && slots[..] == old(slots[..])
      ensures uri.Some? && InstanceIsValid(instance) && old(slots[instance]).live ==>
                r == ERR_INSTANCE_ALREADY_EXISTS && slots[..] == old(slots[..])
      ensures uri.Some? && InstanceIsValid(instance) && !old(slots[instance]).live ==>
                (forall k :: 0 <= k < MAX_INSTANCES && k != instance ==> slots[k] == old(slots[k])) &&
                var e := AddError(uri.value, env);
                (e == SUCCESS ==>
                   r == instance &&
                   slots[instance] == Slot(true, FindPlugin(uri.value, env).value.ports,
                                           FindPlugin(uri.value, env).value.presets, 0, [])) &&
                (e != SUCCESS ==> r == e && (slots[instance].live <==> env.clientOpens && !deactivate(instance)))
    {
      if uri.None? {
        return ERR_LV2_INVALID_URI;
      }
      if !InstanceIsValid(instance) {
        return ERR_INSTANCE_INVALID;
      }
      if InstanceExist(instance) {
        return ERR_INSTANCE_ALREADY_EXISTS;
      }
      // every address field of the struct starts out NULL
      slots[instance] := slots[instance].(live := false, ports := [], presets := []);
      var error := SUCCESS;
      if !env.clientOpens {
        error := ERR_JACK_CLIENT_CREATION;
      } else {
        slots[instance] := slots[instance].(live := true);
        var plugin := env.catalogue(uri.value);
        if plugin.None? {
          plugin := env.reloaded(uri.value);
        }
        if plugin.None? {
          error := ERR_LV2_INVALID_URI;
        } else if !env.instantiates {
          error := ERR_LV2_INSTANTIATION;
        } else {
          slots[instance] := slots[instance].(monitors := []);
          if env.portSetup == PortAllocationFails {
            error := ERR_MEMORY_ALLOCATION;
          } else if env.portSetup == PortRegistrationFails {
            error := ERR_JACK_PORT_REGISTER;
          } else {
            slots[instance] := slots[instance].(ports := plugin.value.ports, bypass := 0);
            if !env.activates {
              error := ERR_JACK_CLIENT_ACTIVATION;
            } else {
              // LoadPresets
              slots[instance] := slots[instance].(presets := plugin.value.presets);
              return instance;
            }
          }
        }
      }
      ghost var failedAt;
      var removed;
      removed, failedAt := Remove(instance, deactivate);
      return error;
    }

    /** effects_bypass: any int is stored on a live id. */
    method Bypass(id: int, value: int) returns (r: int)
      requires Valid()
      modifies slots
      ensures Valid()
      ensures r == (if old(InstanceExist(id)) then SUCCESS else ERR_INSTANCE_NON_EXISTS)
      ensures r == SUCCESS ==> slots[..] == old(slots[..])[id := old(slots[id]).(bypass := value)]
      ensures r != SUCCESS ==> slots[..] == old(slots[..])
    {
      if InstanceExist(id) {
        slots[id] := slots[id].(bypass := value);
        return SUCCESS;
      }
      return ERR_INSTANCE_NON_EXISTS;
    }

    /** effects_set_parameter. The value is clamped to the port's range and stored; the
        cache of the last symbol, buffer and range is refreshed. */
    method SetParameter(id: int, symbol: string, value: real) returns (r: int)
      requires Valid()
      modifies this`lastSymbol, this`lastBuffer, this`lastMin, this`lastMax, slots
      ensures Valid()
      ensures !old(InstanceExist(id)) ==> r == ERR_INSTANCE_NON_EXISTS && slots[..] == old(slots[..])
      ensures old(InstanceExist(id)) ==>
                var ports := old(slots[id].ports);
                slots[..] == old(slots[..])[id := old(slots[id]).(ports := SetBySymbol(ports, symbol, value, sampleRate))] &&
                match IndexOf(Symbols(ports), symbol)
                case None => r == ERR_LV2_INVALID_PARAM_SYMBOL
                case Some(i) => r == SUCCESS && lastSymbol == Some(symbol) && lastBuffer == Some((id, i)) &&
                                (lastMin, lastMax) == PortRange(ports[i], sampleRate)
    {
      if InstanceExist(id) {
        if lastEffectId == id {
          // The "same parameter" fast path: last_effect_id is never assigned a live id.
          assert false;
        }
        var found := FindEffectPortBySymbol(slots[id].ports, symbol);
        if found.Some? {
          var i := found.value;
          var port := slots[id].ports[i];
          var (lo, hi) := PortRange(port, sampleRate);
          var v := value;
          if v > hi {
            v := hi;
          } else if v < lo {
            v := lo;
          }
          slots[id] := slots[id].(ports := slots[id].ports[i := port.(value := v)]);
          lastSymbol := Some(symbol);
          lastBuffer := Some((id, i));
          lastMin := lo;
          lastMax := hi;
          return SUCCESS;
        }
        return ERR_LV2_INVALID_PARAM_SYMBOL;
      }
      return ERR_INSTANCE_NON_EXISTS;
    }

    /** effects_get_parameter: the stored value, clamped to the port's range. */
    method GetParameter(id: int, symbol: string) returns (r: int, value: real)
      requires Valid()
      ensures !InstanceExist(id) ==> r == ERR_INSTANCE_NON_EXISTS
      ensures InstanceExist(id) ==>
                match IndexOf(Symbols(slots[id].ports), symbol)
                case None => r == ERR_LV2_INVALID_PARAM_SYMBOL
                case Some(i) =>
                  r == SUCCESS &&
                  var (lo, hi) := PortRange(slots[id].ports[i], sampleRate);
                  value == Clamp(slots[id].ports[i].value, lo, hi)
    {
      value := 0.0;
      if InstanceExist(id) {
        var found := FindEffectPortBySymbol(slots[id].ports, symbol);
        if found.Some? {
          var port := slots[id].ports[found.value];
          var (lo, hi) := PortRange(port, sampleRate);
          value := port.value;
          if value > hi {
            value := hi;
          } else if value < lo {
            value := lo;
          }
          return SUCCESS, value;
        }
        return ERR_LV2_INVALID_PARAM_SYMBOL, value;
      }
      return ERR_INSTANCE_NON_EXISTS, value;
    }

    /** A set followed by a get of the same parameter reads back the clamped value, and
        the value itself when it was in range. */
    method SetThenGet(id: int, symbol: string, value: real) returns (setCode: int, getCode: int, readBack: real)
      requires Valid()
      modifies this`lastSymbol, this`lastBuffer, this`lastMin, this`lastMax, slots
      ensures Valid()
      ensures setCode == getCode
      ensures setCode == SUCCESS ==> InstanceExist(id) && symbol in Symbols(slots[id].ports)
      ensures setCode == SUCCESS ==>
                var i := IndexOf(Symbols(slots[id].ports), symbol).value;
                var (lo, hi) := PortRange(slots[id].ports[i], sampleRate);
                (lo <= hi ==> readBack == Clamp(value, lo, hi)) &&
                (lo <= value <= hi ==> readBack == value)
    {
      setCode := SetParameter(id, symbol, value);
      getCode, readBack := GetParameter(id, symbol);
      if setCode == SUCCESS {
        var i := IndexOf(Symbols(old(slots[id].ports)), symbol).value;
        var (lo, hi) := PortRange(slots[id].ports[i], sampleRate);
        if lo <= hi {
          ClampIdempotent(value, lo, hi);
        }
      }
    }

    /** effects_monitor_parameter: after a successful get, a known operator appends a
        monitor entry; `portId` is the plugin's index of the port, a foreign lookup. */
    method MonitorParameter(id: int, symbol: string, op: string, value: real, portId: int) returns (r: int)
      requires Valid()
      modifies slots
      ensures Valid()
      ensures !old(InstanceExist(id)) ==> r == ERR_INSTANCE_NON_EXISTS && slots[..] == old(slots[..])
      ensures old(InstanceExist(id)) && symbol !in Symbols(old(slots[id].ports)) ==>
                r == ERR_LV2_INVALID_PARAM_SYMBOL && slots[..] == old(slots[..])
      ensures old(InstanceExist(id)) && symbol in Symbols(old(slots[id].ports)) && MonitorOp(op) == -1 ==>
                r == -1 && slots[..] == old(slots[..])
      ensures old(InstanceExist(id)) && symbol in Symbols(old(slots[id].ports)) && MonitorOp(op) != -1 ==>
                r == SUCCESS &&
                slots[..] == old(slots[..])[id := old(slots[id]).(monitors := old(slots[id].monitors) +
                                                   [MonitorEntry(portId, MonitorOp(op), value, 0.0)])]
    {
      var ret, v := GetParameter(id, symbol);
      if ret != SUCCESS {
        return ret;
      }
      var iop := MonitorOp(op);
      if iop == -1 {
        return -1;
      }
      slots[id] := slots[id].(monitors := slots[id].monitors + [MonitorEntry(portId, iop, value, 0.0)]);
      return SUCCESS;
    }

    /** effects_preset_load. `loadState` stands for building the preset's state from the
        world (None when that fails); restoring it sets each of its pairs in turn through
        effects_set_parameter. */
    method PresetLoad(id: int, uri: string, loadState: string -> Option<seq<StateValue>>) returns (r: int)
      requires Valid()
      modifies this`lastSymbol, this`lastBuffer, this`lastMin, this`lastMax, slots
      ensures Valid()
      ensures !old(InstanceExist(id)) ==> r == ERR_INSTANCE_NON_EXISTS && slots[..] == old(slots[..])
      ensures old(InstanceExist(id)) && uri !in old(slots[id].presets) ==>
                r == ERR_LV2_INVALID_PRESET_URI && slots[..] == old(slots[..])
      ensures old(InstanceExist(id)) && uri in old(slots[id].presets) && loadState(uri).None? ==>
                r == ERR_LV2_CANT_LOAD_STATE && slots[..] == old(slots[..])
      ensures old(InstanceExist(id)) && uri in old(slots[id].presets) && loadState(uri).Some? ==>
                r == SUCCESS &&
                slots[..] == old(slots[..])[id := old(slots[id]).(ports := ApplyState(old(slots[id].ports), loadState(uri).value, sampleRate))]
    {
      if !InstanceExist(id) {
        return ERR_INSTANCE_NON_EXISTS;
      }
      var found, preset := FindPreset(slots[id].presets, uri);
      if found != SUCCESS {
        return ERR_LV2_INVALID_PRESET_URI;
      }
      var state := loadState(uri);
      if state.None? {
        return ERR_LV2_CANT_LOAD_STATE;
      }
      var pairs := state.value;
      var i := 0;
      while i < |pairs|
        invariant 0 <= i <= |pairs|
        invariant Valid()
        invariant slots[..] == old(slots[..])[id := old(slots[id]).(ports := ApplyState(old(slots[id].ports), pairs[..i], sampleRate))]
      {
        assert pairs[..i + 1][..i] == pairs[..i];
        var ignored := SetParameter(id, pairs[i].symbol, pairs[i].value);
        i := i + 1;
      }
      assert pairs[..|pairs|] == pairs;
      return SUCCESS;
    }
  }
}

// Model of RunPostPonedEvents and ShouldIgnorePostPonedEvent in tests/rtmempool-test.c:
// the flush of the shared queue of postponed events. Events live in nodes of the real-time
// memory pool; the flush walks them newest first, drops the ones a newer event of the same
// kind makes stale, reports the rest as feedback messages and hands every node back to the
// pool. The feedback text (snprintf with %f) is kept as a structured message, and the
// mutex around the shared list is not modelled.

module PostponedEvents {
  import opened Utils
  import opened RtMemPool

  /** MAX_CHAR_BUF_SIZE: symbols are compared and cached on this many characters. */
  const MAX_CHAR_BUF_SIZE: nat := 255

  datatype EventType = ParamSet | OutputMonitor | ProgramListen | MidiMap

  /** postponed_event_t; a NULL symbol is None. */
  datatype Event = Event(etype: EventType, effectId: int, symbol: Option<string>,
                         channel: int, controller: int, value: real)

  /** The feedback one event is reported as: "param_set", "output_set", "midi_program",
      "midi_mapped", and the closing "data_finish". */
  datatype Feedback =
    | ParamSetMsg(effectId: int, symbol: Option<string>, value: real)
    | OutputSetMsg(effectId: int, symbol: Option<string>, value: real)
    | MidiProgramMsg(program: int)
    | MidiMappedMsg(effectId: int, symbol: Option<string>, channel: int, controller: int, value: real)
    | DataFinish

  function Message(ev: Event): Feedback
  {
    match ev.etype
    case ParamSet => ParamSetMsg(ev.effectId, ev.symbol, ev.value)
    case OutputMonitor => OutputSetMsg(ev.effectId, ev.symbol, ev.value)
    case ProgramListen => MidiProgramMsg(ev.controller)
    case MidiMap => MidiMappedMsg(ev.effectId, ev.symbol, ev.channel, ev.controller, ev.value)
  }

  /** The first MAX_CHAR_BUF_SIZE characters: what strncpy keeps and strncmp looks at. */
  function Trunc(s: string): (r: string)
    ensures |r| <= MAX_CHAR_BUF_SIZE && r <= s
  {
    if |s| <= MAX_CHAR_BUF_SIZE then s else s[..MAX_CHAR_BUF_SIZE]
  }

  /** An effect id and a truncated symbol: what the caches remember. */
  datatype Key = Key(effectId: int, symbol: string)

  function KeyOf(ev: Event): Key
    requires ev.symbol.Some?
  {
    Key(ev.effectId, Trunc(ev.symbol.value))
  }

  /** postponed_cached_events: the last reported key and the list of keys seen. The last
      key starts out unset (id -1 and an uninitialised symbol, which this model never
      matches). */
  datatype Cache = Cache(last: Option<Key>, symbols: seq<Key>)

  const EMPTY_CACHE: Cache := Cache(None, [])

  /** The last key reported was listed before it became the last one. */
  predicate Consistent(c: Cache)
  {
    c.last.Some? ==> c.last.value in c.symbols
  }

  /** Every key a cache would match. */
  ghost function Seen(c: Cache): set<Key>
  {
    (if c.last.Some? then {c.last.value} else {}) + set k | k in c.symbols
  }

  /** ShouldIgnorePostPonedEvent: symbol-less events are never ignored; otherwise the
      event is ignored when the last key or a listed key matches it, and is added to the
      list when not. Allocating the list entry is taken to succeed. */
  function ShouldIgnore(ev: Event, c: Cache): (r: (bool, Cache))
    ensures ev.symbol.None? ==> r == (false, c)
    ensures ev.symbol.Some? ==> (r.0 <==> KeyOf(ev) in Seen(c)) && Seen(r.1) == Seen(c) + {KeyOf(ev)}
    ensures r.0 ==> r.1 == c
  {
    if ev.symbol.None? then (false, c)
    else
      var k := KeyOf(ev);
      if c.last == Some(k) then (true, c)
      else if k in c.symbols then (true, c)
      else (false, c.(symbols := c.symbols + [k]))
  }

  /** Param and output events are stored into the cache after they are reported, which
      copies their symbol: the program needs one there. */
  predicate Storable(ev: Event)
  {
    ev.etype == ParamSet || ev.etype == OutputMonitor ==> ev.symbol.Some?
  }

  /** The state of the walk: the two caches, whether a program change was reported, and
      the feedback sent so far. */
  datatype Walk = Walk(param: Cache, output: Cache, gotProgram: bool, sent: seq<Feedback>)

  const START: Walk := Walk(EMPTY_CACHE, EMPTY_CACHE, false, [])

  /** One turn of the newest-first loop. */
  function Visit(w: Walk, ev: Event, ignored: int): Walk
    requires Storable(ev)
  {
    if ev.effectId == ignored then w
    else
      match ev.etype
      case ParamSet =>
        var (skip, c) := ShouldIgnore(ev, w.param);
        if skip then w.(param := c)
        else w.(param := c.(last := Some(KeyOf(ev))), sent := w.sent + [Message(ev)])
      case OutputMonitor =>
        var (skip, c) := ShouldIgnore(ev, w.output);
        if skip then w.(output := c)
        else w.(output := c.(last := Some(KeyOf(ev))), sent := w.sent + [Message(ev)])
      case ProgramListen =>
        if w.gotProgram then w else w.(gotProgram := true, sent := w.sent + [Message(ev)])
      case MidiMap =>
        w.(sent := w.sent + [Message(ev)])
  }

  predicate AllStorable(e: seq<Event>)
  {
    forall i :: 0 <= i < |e| ==> Storable(e[i])
  }

  /** The walk over a queue, oldest first in `e`, visited from its last element back. */
  function WalkBack(e: seq<Event>, ignored: int): Walk
    requires AllStorable(e)
  {
    if |e| == 0 then START else Visit(WalkBack(e[1..], ignored), e[0], ignored)
  }

  /** Whether `newer` makes the flush drop `older`: a newer event of the same kind for the
      same key (param and output sets, symbols compared on their first 255 characters) or
      any newer program change; events of the ignored effect count for nothing. */
  predicate Supersedes(newer: Event, older: Event, ignored: int)
  {
    newer.effectId != ignored && newer.etype == older.etype &&
    match older.etype
    case ParamSet => older.symbol.Some? && newer.symbol.Some? && KeyOf(newer) == KeyOf(older)
    case OutputMonitor => older.symbol.Some? && newer.symbol.Some? && KeyOf(newer) == KeyOf(older)
    case ProgramListen => true
    case MidiMap => false
  }

  predicate Reported(ev: Event, later: seq<Event>, ignored: int)
  {
    ev.effectId != ignored && forall k :: 0 <= k < |later| ==> !Supersedes(later[k], ev, ignored)
  }

  /** Reference definition of the feedback of a flush: newest first, every event of
      another effect that no newer event supersedes. */
  function Reference(e: seq<Event>, ignored: int): seq<Feedback>
  {
    if |e| == 0 then []
    else Reference(e[1..], ignored) + (if Reported(e[0], e[1..], ignored) then [Message(e[0])] else [])
  }

  /** The keys of the events of type `t` that a flush caches. */
  ghost function Keys(e: seq<Event>, t: EventType, ignored: int): set<Key>
  {
    if |e| == 0 then {}
    else Keys(e[1..], t, ignored) +
         (if e[0].etype == t && e[0].effectId != ignored && e[0].symbol.Some? then {KeyOf(e[0])} else {})
  }

  predicate HasProgram(e: seq<Event>, ignored: int)
  {
    exists k :: 0 <= k < |e| && e[k].etype == ProgramListen && e[k].effectId != ignored
  }

  lemma {:induction false} KeysSupersede(ev: Event, later: seq<Event>, ignored: int)
    requires (ev.etype == ParamSet || ev.etype == OutputMonitor) && ev.symbol.Some?
    ensures (forall k :: 0 <= k < |later| ==> !Supersedes(later[k], ev, ignored)) <==>
              KeyOf(ev) !in Keys(later, ev.etype, ignored)
  {
    if |later| > 0 {
      KeysSupersede(ev, later[1..], ignored);
      assert forall k :: 1 <= k < |later| ==> later[k] == later[1..][k - 1];
    }
  }

  lemma ProgramSupersede(ev: Event, later: seq<Event>, ignored: int)
    requires ev.etype == ProgramListen
    ensures (forall k :: 0 <= k < |later| ==> !Supersedes(later[k], ev, ignored)) <==> !HasProgram(later, ignored)
  {
  }

  /** What a walk has gathered after visiting `e`: the reference feedback, caches holding
      exactly the keys of what it visited, and the program flag. */
  ghost predicate Summarises(w: Walk, e: seq<Event>, ignored: int)
  {
    w.sent == Reference(e, ignored) &&
    Seen(w.param) == Keys(e, ParamSet, ignored) &&
    Seen(w.output) == Keys(e, OutputMonitor, ignored) &&
    Consistent(w.param) && Consistent(w.output) &&
    (w.gotProgram <==> HasProgram(e, ignored))
  }

  lemma HasProgramCons(e: seq<Event>, ignored: int)
    requires |e| > 0
    ensures HasProgram(e, ignored) <==>
              HasProgram(e[1..], ignored) || (e[0].etype == ProgramListen && e[0].effectId != ignored)
  {
    if HasProgram(e[1..], ignored) {
      var k :| 0 <= k < |e[1..]| && e[1..][k].etype == ProgramListen && e[1..][k].effectId != ignored;
      assert e[k + 1] == e[1..][k];
    }
    if HasProgram(e, ignored) && !(e[0].etype == ProgramListen && e[0].effectId != ignored) {
      var k :| 0 <= k < |e| && e[k].etype == ProgramListen && e[k].effectId != ignored;
      assert e[1..][k - 1] == e[k];
    }
  }

  /** A cache step that reports the event leaves a consistent cache holding its key. */
  lemma CacheStep(ev: Event, c: Cache, keys: set<Key>)
    requires ev.symbol.Some? && Seen(c) == keys && Consistent(c)
    ensures var (skip, c') := ShouldIgnore(ev, c);
            (skip ==> Seen(c') == keys + {KeyOf(ev)} && Consistent(c')) &&
            (!skip ==> Seen(c'.(last := Some(KeyOf(ev)))) == keys + {KeyOf(ev)} &&
                       Consistent(c'.(last := Some(KeyOf(ev)))))
  {
  }

  /** One more (older) event keeps the summary. */
  lemma VisitSummarises(w: Walk, e: seq<Event>, ignored: int)
    requires |e| > 0 && AllStorable(e) && Summarises(w, e[1..], ignored)
    ensures Summarises(Visit(w, e[0], ignored), e, ignored)
  {
    var ev, later := e[0], e[1..];
    HasProgramCons(e, ignored);
    if ev.effectId != ignored {
      match ev.etype
      case ParamSet =>
        KeysSupersede(ev, later, ignored);
        CacheStep(ev, w.param, Keys(later, ParamSet, ignored));
      case OutputMonitor =>
        KeysSupersede(ev, later, ignored);
        CacheStep(ev, w.output, Keys(later, OutputMonitor, ignored));
      case ProgramListen =>
        ProgramSupersede(ev, later, ignored);
      case MidiMap =>
    }
  }

  /** The walk with its caches reports exactly the reference feedback. */
  lemma {:induction false} WalkIsReference(e: seq<Event>, ignored: int)
    requires AllStorable(e)
    ensures Summarises(WalkBack(e, ignored), e, ignored)
    ensures WalkBack(e, ignored).sent == Reference(e, ignored)
  {
    if |e| > 0 {
      assert AllStorable(e[1..]) by {
        forall i | 0 <= i < |e[1..]| ensures Storable(e[1..][i]) { assert e[1..][i] == e[i + 1]; }
      }
      WalkIsReference(e[1..], ignored);
      VisitSummarises(WalkBack(e[1..], ignored), e, ignored);
    }
  }

  /** The queue without the events of the ignored effect. */
  function Others(e: seq<Event>, ignored: int): (r: seq<Event>)
    ensures forall i :: 0 <= i < |r| ==> r[i].effectId != ignored && r[i] in e
  {
    if |e| == 0 then []
    else if e[0].effectId == ignored then Others(e[1..], ignored)
    else [e[0]] + Others(e[1..], ignored)
  }

  /** Events of the ignored effect change nothing: the walk with and without them ends in
      the same state. */
  lemma {:induction false} IgnoredChangeNothing(e: seq<Event>, ignored: int)
    requires AllStorable(e)
    ensures AllStorable(Others(e, ignored)) && WalkBack(e, ignored) == WalkBack(Others(e, ignored), ignored)
  {
    if |e| > 0 {
      assert AllStorable(e[1..]) by {
        forall i | 0 <= i < |e[1..]| ensures Storable(e[1..][i]) { assert e[1..][i] == e[i + 1]; }
      }
      IgnoredChangeNothing(e[1..], ignored);
      var o := Others(e, ignored);
      if e[0].effectId != ignored {
        assert o[1..] == Others(e[1..], ignored);
      }
    }
  }

  /** One queued event: the pool memory it lives in (the payload address) and the event. */
  datatype Queued = Queued(memory: nat, event: Event)

  function Events(q: seq<Queued>): (r: seq<Event>)
    ensures |r| == |q| && forall i :: 0 <= i < |q| ==> r[i] == q[i].event
  {
    if |q| == 0 then [] else [q[0].event] + Events(q[1..])
  }

  /** The pool node of each queued event, one list head before its memory. */
  function Nodes(q: seq<Queued>): (r: seq<nat>)
    requires forall i :: 0 <= i < |q| ==> q[i].memory >= 1
    ensures |r| == |q| && forall i :: 0 <= i < |q| ==> r[i] == q[i].memory - 1
  {
    if |q| == 0 then [] else [q[0].memory - 1] + Nodes(q[1..])
  }

  /** The pool lists after the first `n` of `ns`, in order, have been deallocated. */
  function ReturnAll(l: Lists, ns: seq<nat>, n: nat): Lists
    requires n <= |ns|
  {
    if n == 0 then l else Returned(ReturnAll(l, ns, n - 1), ns[n - 1])
  }

  lemma RemoveKeeps(s: seq<nat>, x: nat, y: nat)
    requires x in s && x != y
    ensures x in Remove(s, y)
  {
    if s[0] != x && s[0] != y {
      RemoveKeeps(s[1..], x, y);
    }
  }

  /** While distinct used nodes are deallocated in order, the ones not yet reached stay
      in use. */
  lemma {:induction false} ReturnAllKeepsUsed(l: Lists, ns: seq<nat>, n: nat)
    requires n <= |ns| && Distinct(ns) && forall k :: 0 <= k < |ns| ==> ns[k] in l.used
    ensures forall k :: n <= k < |ns| ==> ns[k] in ReturnAll(l, ns, n).used
  {
    if n > 0 {
      ReturnAllKeepsUsed(l, ns, n - 1);
      var m := ReturnAll(l, ns, n - 1);
      forall k | n <= k < |ns|
        ensures ns[k] in Remove(m.used, ns[n - 1])
      {
        RemoveKeeps(m.used, ns[k], ns[n - 1]);
      }
    }
  }

  /** Deallocating nodes in order appends them, in that order, to unused. */
  lemma {:induction false} ReturnAllUnused(l: Lists, ns: seq<nat>, n: nat)
    requires n <= |ns|
    ensures ReturnAll(l, ns, n).unused == l.unused + ns[..n]
  {
    if n > 0 {
      ReturnAllUnused(l, ns, n - 1);
      assert ns[..n] == ns[..n - 1] + [ns[n - 1]];
    }
  }

  /** The node of the `i`-th queued event is still in use after the first `i` went back. */
  lemma NextStillUsed(queue: seq<Queued>, l: Lists, i: nat)
    requires Held(queue, l.used) && Distinct(Nodes(queue)) && i < |queue|
    ensures queue[i].memory >= 1 && queue[i].memory - 1 == Nodes(queue)[i]
    ensures Nodes(queue)[i] in ReturnAll(l, Nodes(queue), i).used
  {
    ReturnAllKeepsUsed(l, Nodes(queue), i);
  }

  /** Deallocating distinct used nodes takes exactly that many nodes off used. */
  lemma {:induction false} ReturnAllUsed(l: Lists, ns: seq<nat>, n: nat)
    requires n <= |ns| && Distinct(ns) && forall k :: 0 <= k < |ns| ==> ns[k] in l.used
    ensures |ReturnAll(l, ns, n).used| == |l.used| - n
  {
    if n > 0 {
      ReturnAllUsed(l, ns, n - 1);
      ReturnAllKeepsUsed(l, ns, n - 1);
      RemoveLength(ReturnAll(l, ns, n - 1).used, ns[n - 1]);
    }
  }

  /** Deallocating distinct used nodes keeps every node of the pool. */
  lemma {:induction false} ReturnAllElems(l: Lists, ns: seq<nat>, n: nat)
    requires n <= |ns| && Distinct(ns) && forall k :: 0 <= k < |ns| ==> ns[k] in l.used
    ensures Elems(ReturnAll(l, ns, n)) == Elems(l)
  {
    if n > 0 {
      ReturnAllElems(l, ns, n - 1);
      ReturnAllKeepsUsed(l, ns, n - 1);
      var m := ReturnAll(l, ns, n - 1);
      var x := ns[n - 1];
      RemoveElems(m.used, x);
      assert x in multiset(m.used);
      assert multiset(m.unused + [x]) == multiset(m.unused) + multiset{x};
      assert ReturnAll(l, ns, n) == Lists(Remove(m.used, x), m.unused + [x]);
    }
  }

  /** Deallocating distinct used nodes keeps every node of the pool, each still once. */
  lemma ReturnAllKeepsNodes(l: Lists, ns: seq<nat>, n: nat)
    requires n <= |ns| && Distinct(ns) && forall k :: 0 <= k < |ns| ==> ns[k] in l.used
    requires WellFormed(l)
    ensures Elems(ReturnAll(l, ns, n)) == Elems(l) && WellFormed(ReturnAll(l, ns, n))
  {
    ReturnAllElems(l, ns, n);
  }

  /** The queued events occupy distinct nodes, all in use in the pool. */
  predicate Held(q: seq<Queued>, used: seq<nat>)
  {
    (forall i :: 0 <= i < |q| ==> q[i].memory >= 1 && q[i].memory - 1 in used) &&
    (forall i, j :: 0 <= i < j < |q| ==> q[i].memory != q[j].memory)
  }

  lemma HeldDistinct(q: seq<Queued>, used: seq<nat>)
    requires Held(q, used)
    ensures Distinct(Nodes(q))
  {
  }

  /** Queuing an event in the node allocation just took keeps every queued node distinct
      and in use. */
  lemma PostKeepsHeld(q: seq<Queued>, l: Lists, ev: Event)
    requires WellFormed(l) && |l.unused| > 0 && Held(q, l.used)
    requires AllStorable(Events(q)) && Storable(ev)
    ensures Held(q + [Queued(l.unused[0] + 1, ev)], Taken(l).used)
    ensures AllStorable(Events(q + [Queued(l.unused[0] + 1, ev)]))
  {
    TakenUnused(l);
    HeldAppend(q, l.used, l.unused[0], ev);
    EventsAppend(q, Queued(l.unused[0] + 1, ev));
  }

  /** A node not yet in use, queued at the back and marked used, keeps the queue held. */
  lemma HeldAppend(q: seq<Queued>, used: seq<nat>, n: nat, ev: Event)
    requires Held(q, used) && n !in used
    ensures Held(q + [Queued(n + 1, ev)], used + [n])
  {
    var q' := q + [Queued(n + 1, ev)];
    forall i | 0 <= i < |q'|
      ensures q'[i].memory >= 1 && q'[i].memory - 1 in used + [n]
    {
      if i < |q| {
        assert q'[i] == q[i];
      }
    }
    forall i, j | 0 <= i < j < |q'|
      ensures q'[i].memory != q'[j].memory
    {
      assert q'[i] == q[i];
      if j < |q| {
        assert q'[j] == q[j];
      } else {
        assert q[i].memory - 1 in used;
      }
    }
  }

  lemma EventsAppend(q: seq<Queued>, x: Queued)
    ensures Events(q + [x]) == Events(q) + [x.event]
  {
  }

  /** The head of `unused` is not in use. */
  lemma TakenUnused(l: Lists)
    requires WellFormed(l) && |l.unused| > 0
    ensures l.unused[0] !in l.used
  {
    var n := l.unused[0];
    assert l.unused == [n] + l.unused[1..];
    assert multiset(l.unused)[n] >= 1;
    assert Elems(l)[n] <= 1;
    assert multiset(l.used)[n] == 0;
  }

  /** The postponed-events side of the host: the shared list g_rtsafe_list, the ready flag
      g_postevents_ready and the pool g_rtsafe_mem_pool. */
  class Postponed {
    var shared: seq<Queued>
    var ready: bool
    const pool: Pool

    ghost predicate Valid()
      reads this, pool
    {
      pool.Valid() && Held(shared, pool.used) && AllStorable(Events(shared))
    }

    constructor (pool: Pool)
      requires pool.Valid()
      ensures Valid() && this.pool == pool && shared == [] && !ready
    {
      this.pool := pool;
      shared := [];
      ready := false;
    }

    /** One event of ProcessPlugin: a node from the pool, dropped when it is exhausted,
        otherwise filled and appended to the shared list. */
    method Post(ev: Event) returns (queued: bool)
      requires Valid() && Storable(ev)
      modifies this, pool
      ensures Valid() && ready == old(ready)
      ensures queued <==> old(pool.unused) != []
      ensures !queued ==> shared == old(shared) && pool.State() == old(pool.State())
      ensures queued ==> shared == old(shared) + [Queued(old(pool.unused)[0] + 1, ev)] &&
                         pool.State() == Taken(old(pool.State()))
    {
      var p := pool.Allocate();
      if p.None? {
        return false;
      }
      PostKeepsHeld(old(shared), old(pool.State()), ev);
      shared := shared + [Queued(p.value, ev)];
      queued := true;
    }

    /** RunPostPonedEvents: the shared list is taken over and left empty; an empty queue
        ends the flush at once. Otherwise the queue is walked newest first and reported,
        every node goes back to the pool in queue order, and "data_finish" follows when
        the ready flag was set, which is then cleared. */
    method Run(ignored: int) returns (sent: seq<Feedback>)
      requires Valid()
      modifies this, pool
      ensures Valid() && shared == []
      ensures old(shared) == [] ==> sent == [] && ready == old(ready) && pool.State() == old(pool.State())
      ensures old(shared) != [] ==>
                sent == Reference(Events(old(shared)), ignored) + (if old(ready) then [DataFinish] else []) &&
                !ready &&
                pool.State() == ReturnAll(old(pool.State()), Nodes(old(shared)), |old(shared)|)
    {
      var queue := shared;
      shared := [];
      if |queue| == 0 {
        return [];
      }
      sent := Report(queue, ignored);
      HeldDistinct(queue, pool.used);
      Release(queue);
      if ready {
        ready := false;
        sent := sent + [DataFinish];
      }
    }

    /** Every node of the queue back to the pool, front to back. */
    method Release(queue: seq<Queued>)
      requires pool.Valid() && Held(queue, pool.used) && Distinct(Nodes(queue))
      modifies pool
      ensures pool.Valid() && pool.State() == ReturnAll(old(pool.State()), Nodes(queue), |queue|)
    {
      ghost var l := pool.State();
      ghost var ns := Nodes(queue);
      var i := 0;
      while i < |queue|
        invariant 0 <= i <= |queue| && pool.Valid()
        invariant pool.State() == ReturnAll(l, ns, i)
      {
        NextStillUsed(queue, l, i);
        ReleaseOne(queue[i].memory, l, ns, i);
        i := i + 1;
      }
    }

    /** One turn of the loop: the node of the `i`-th queued event goes back. */
    method ReleaseOne(memory: nat, ghost l: Lists, ghost ns: seq<nat>, ghost i: nat)
      requires i < |ns| && memory >= 1 && memory - 1 == ns[i]
      requires pool.Valid() && pool.State() == ReturnAll(l, ns, i) && ns[i] in pool.used
      modifies pool
      ensures pool.Valid() && pool.State() == ReturnAll(l, ns, i + 1)
    {
      pool.Deallocate(memory);
    }
  }

  /** The walk of RunPostPonedEvents over a queue, from its last node back to its first,
      with both caches and the program flag as locals. */
  method Report(queue: seq<Queued>, ignored: int) returns (sent: seq<Feedback>)
    requires AllStorable(Events(queue))
    ensures sent == Reference(Events(queue), ignored)
  {
    ghost var e := Events(queue);
    var paramSet, outputMon := EMPTY_CACHE, EMPTY_CACHE;
    var gotMidiProgram := false;
    sent := [];
    var i := |queue|;
    assert e[|e|..] == [];
    while i > 0
      invariant 0 <= i <= |queue|
      invariant AllStorable(e[i..])
      invariant WalkBack(e[i..], ignored) == Walk(paramSet, outputMon, gotMidiProgram, sent)
    {
      i := i - 1;
      var ev := queue[i].event;
      assert e[i..][1..] == e[i + 1..] && e[i..][0] == ev;
      if ev.effectId == ignored {
        continue;
      }
      match ev.etype {
        case ParamSet =>
          var skip;
          skip, paramSet := Lookup(ev, paramSet);
          if !skip {
            sent := sent + [Message(ev)];
            paramSet := paramSet.(last := Some(KeyOf(ev)));
          }
        case OutputMonitor =>
          var skip;
          skip, outputMon := Lookup(ev, outputMon);
          if !skip {
            sent := sent + [Message(ev)];
            outputMon := outputMon.(last := Some(KeyOf(ev)));
          }
        case ProgramListen =>
          if !gotMidiProgram {
            sent := sent + [Message(ev)];
            gotMidiProgram := true;
          }
        case MidiMap =>
          sent := sent + [Message(ev)];
      }
    }
    assert e[0..] == e;
    WalkIsReference(e, ignored);
  }

  /** ShouldIgnorePostPonedEvent as the program runs it: the last key first, then a walk
      of the list of seen keys, and the new key appended when none matched. */
  method Lookup(ev: Event, c: Cache) returns (skip: bool, c': Cache)
    ensures (skip, c') == ShouldIgnore(ev, c)
  {
    if ev.symbol.None? {
      return false, c;
    }
    var k := KeyOf(ev);
    if c.last == Some(k) {
      return true, c;
    }
    var i := 0;
    while i < |c.symbols|
      invariant 0 <= i <= |c.symbols| && k !in c.symbols[..i]
    {
      if c.symbols[i] == k {
        return true, c;
      }
      assert c.symbols[..i + 1] == c.symbols[..i] + [c.symbols[i]];
      i := i + 1;
    }
    assert c.symbols[..i] == c.symbols;
    return false, c.(symbols := c.symbols + [k]);
  }
}

// Model of src/protocol.c: the registration-ordered command table and the matcher that
// dispatches one received line to the first pattern it fits.

module Protocol {
  import opened Utils

  const PROTOCOL_MAX_COMMANDS: nat := 12
  const NOT_FOUND: int := -1
  const MANY_ARGUMENTS: int := -2
  const FEW_ARGUMENTS: int := -3
  const INVALID_ARGUMENT: int := -4

  /** g_error_messages, indexed by -index-1. */
  const ERROR_MESSAGES: seq<string> := ["not found", "many arguments", "few arguments", "invalid argument"]

  /** A callback is an opaque handle; what it answers is supplied by the caller of Parse. */
  type Callback = nat

  /** not_is_wildcard: a pattern token is literal unless it contains '%' anywhere. */
  predicate NotIsWildcard(token: string)
  {
    '%' !in token
  }

  /** A pattern fits a received line when both have as many tokens and every literal
      pattern token equals the received token at the same place. Wildcards accept
      anything: there is no type check. */
  predicate Matches(pattern: seq<string>, received: seq<string>)
  {
    |pattern| == |received| &&
    forall j :: 0 <= j < |pattern| ==> NotIsWildcard(pattern[j]) ==> pattern[j] == received[j]
  }

  /** The first registered pattern, at or after `from`, that fits. */
  function FirstMatchFrom(patterns: seq<seq<string>>, received: seq<string>, from: nat): (r: Option<nat>)
    requires from <= |patterns|
    ensures r.Some? ==> from <= r.value < |patterns| && Matches(patterns[r.value], received)
    ensures r.Some? ==> forall p :: from <= p < r.value ==> !Matches(patterns[p], received)
    ensures r.None? ==> forall p :: from <= p < |patterns| ==> !Matches(patterns[p], received)
    decreases |patterns| - from
  {
    if from == |patterns| then None
    else if Matches(patterns[from], received) then Some(from)
    else FirstMatchFrom(patterns, received, from + 1)
  }

  function FirstMatch(patterns: seq<seq<string>>, received: seq<string>): Option<nat>
  {
    FirstMatchFrom(patterns, received, 0)
  }

  /** A wildcard token accepts every received token, numeric or not. */
  lemma WildcardAcceptsAnything(prefix: seq<string>, wildcard: string, token: string)
    requires '%' in wildcard
    ensures Matches(prefix + [wildcard], prefix + [token])
  {
    assert !NotIsWildcard(wildcard);
    forall j | 0 <= j < |prefix| + 1 && NotIsWildcard((prefix + [wildcard])[j])
      ensures (prefix + [wildcard])[j] == (prefix + [token])[j]
    {
      assert j < |prefix|;
    }
  }

  /** g_commands, g_callbacks and g_index. */
  class CommandTable {
    var commands: array<seq<string>>
    var callbacks: array<Option<Callback>>
    var index: nat

    ghost predicate Valid()
      reads this
    {
      commands.Length == PROTOCOL_MAX_COMMANDS &&
      callbacks.Length == PROTOCOL_MAX_COMMANDS &&
      index <= PROTOCOL_MAX_COMMANDS
    }

    /** The registered patterns, in registration order. */
    ghost function Patterns(): seq<seq<string>>
      reads this, commands
      requires Valid()
    {
      commands[..index]
    }

    ghost function Callbacks(): seq<Option<Callback>>
      reads this, callbacks
      requires Valid()
    {
      callbacks[..index]
    }

    constructor ()
      ensures Valid() && fresh(commands) && fresh(callbacks)
      ensures Patterns() == [] && Callbacks() == []
    {
      commands := new seq<string>[PROTOCOL_MAX_COMMANDS];
      callbacks := new Option<Callback>[PROTOCOL_MAX_COMMANDS](_ => None);
      index := 0;
    }

    /** protocol_add_command: appends the split pattern and its callback; a full table is
        left as it is. */
    method AddCommand(command: string, callback: Option<Callback>)
      requires Valid() && '\0' !in command
      modifies this`index, commands, callbacks
      ensures Valid()
      ensures old(index) >= PROTOCOL_MAX_COMMANDS ==>
                index == old(index) && Patterns() == old(Patterns()) && Callbacks() == old(Callbacks())
      ensures old(index) < PROTOCOL_MAX_COMMANDS ==>
                index == old(index) + 1 &&
                Patterns() == old(Patterns()) + [Split(command, ' ')] &&
                Callbacks() == old(Callbacks()) + [callback]
    {
      if index >= PROTOCOL_MAX_COMMANDS {
        return;
      }
      var count, data := StringSplit(Some(command), ' ');
      commands[index] := data.value[..];
      callbacks[index] := callback;
      index := index + 1;
    }

    /** protocol_parse. Returns the bytes handed to socket_send (None when nothing is
        sent). `respond` is what each callback writes into the response buffer. */
    method Parse(buffer: Option<string>, respond: (Callback, seq<string>) -> string) returns (sent: Option<string>)
      requires Valid() && (buffer.Some? ==> '\0' !in buffer.value)
      ensures buffer.None? ==> sent.None?
      ensures buffer.Some? ==>
        var received := Split(buffer.value, ' ');
        match FirstMatch(Patterns(), received)
        case Some(i) =>
          sent == (if Callbacks()[i].Some? then Some(respond(Callbacks()[i].value, received) + "\0") else None)
        case None => sent == Some("not found\0")
    {
      var count, data := StringSplit(buffer, ' ');
      if count == 0 {
        return None;
      }
      var received := data.value[..];
      var idx := NOT_FOUND;
      var i := 0;
      while i < index
        invariant 0 <= i <= index
        invariant idx == NOT_FOUND
        invariant forall p :: 0 <= p < i ==> !Matches(commands[p], received)
      {
        if |commands[i]| == count {
          idx := i;
          var j := 0;
          while j < count
            invariant 0 <= j <= count
            invariant idx == i
            invariant forall q :: 0 <= q < j ==> NotIsWildcard(commands[i][q]) ==> commands[i][q] == received[q]
          {
            if NotIsWildcard(commands[i][j]) && commands[i][j] != received[j] {
              idx := NOT_FOUND;
              break;
            }
            j := j + 1;
          }
          if idx >= 0 {
            break;
          }
        }
        i := i + 1;
      }
      assert forall p :: 0 <= p < index ==> Patterns()[p] == commands[p];
      FirstMatchIsFirst(Patterns(), received, if idx >= 0 then Some(idx) else None);
      if idx >= 0 {
        if callbacks[idx].Some? {
          var response := respond(callbacks[idx].value, received);
          sent := Some(response + "\0");
        } else {
          sent := None;
        }
      } else {
        var message := ERROR_MESSAGES[-idx - 1];
        assert message + "\0" == "not found\0";
        sent := Some(message + "\0");
      }
    }
  }

  /** The least fitting pattern is the one FirstMatch names. */
  lemma FirstMatchIsFirst(patterns: seq<seq<string>>, received: seq<string>, r: Option<nat>)
    requires r.Some? ==> r.value < |patterns| && Matches(patterns[r.value], received)
    requires r.Some? ==> forall p :: 0 <= p < r.value ==> !Matches(patterns[p], received)
    requires r.None? ==> forall p :: 0 <= p < |patterns| ==> !Matches(patterns[p], received)
    ensures FirstMatch(patterns, received) == r
  {
  }
}

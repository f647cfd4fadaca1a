// Model of src/socket.c: cutting a received chunk into NUL-terminated messages, and the
// partial-send loop behind socket_send and socket_send_feedback. recv and send are
// abstract: the chunk is a parameter and each send call's return value is an oracle.

module Socket {
  import opened Utils

  const NUL: char := '\0'

  /** What the receive callback is handed for one message. */
  datatype Message = Message(senderId: int, data: string, dataSize: nat)

  /** strlen: the position of the first NUL, or the whole length when there is none. */
  function StrLen(s: seq<char>): (n: nat)
    ensures n <= |s| && (n < |s| ==> s[n] == NUL)
  {
    if |s| == 0 || s[0] == NUL then 0 else StrLen(s[1..]) + 1
  }

  /** No NUL comes before the one strlen stops at. */
  lemma {:induction false} StrLenFirstNul(s: seq<char>)
    ensures NUL !in s[..StrLen(s)]
  {
    if |s| > 0 && s[0] != NUL {
      StrLenFirstNul(s[1..]);
      assert s[..StrLen(s)] == [s[0]] + s[1..][..StrLen(s[1..])];
    }
  }

  /** The messages of a chunk, read from the front the way the framing loop walks it: a
      NUL is skipped, anything else starts a message that runs up to the next NUL. */
  function Runs(s: seq<char>): seq<string>
    decreases |s|
  {
    if |s| == 0 then []
    else if s[0] == NUL then Runs(s[1..])
    else
      var n := StrLen(s);
      if n < |s| then [s[..n]] + Runs(s[n + 1..]) else [s]
  }

  /** Every message is non-empty and holds no NUL. */
  lemma {:induction false} RunsWellFormed(s: seq<char>)
    ensures forall i :: 0 <= i < |Runs(s)| ==> |Runs(s)[i]| > 0 && NUL !in Runs(s)[i]
    decreases |s|
  {
    if |s| > 0 {
      if s[0] == NUL {
        RunsWellFormed(s[1..]);
      } else {
        StrLenFirstNul(s);
        if StrLen(s) < |s| {
          RunsWellFormed(s[StrLen(s) + 1..]);
        } else {
          assert s[..StrLen(s)] == s;
        }
      }
    }
  }

  /** Messages sent back to back, each followed by its NUL, as the sending side builds
      them. */
  function Frames(messages: seq<string>): seq<char>
  {
    if |messages| == 0 then [] else messages[0] + [NUL] + Frames(messages[1..])
  }

  lemma StrLenFrame(m: string, rest: seq<char>)
    requires NUL !in m
    ensures StrLen(m + [NUL] + rest) == |m|
    ensures (m + [NUL] + rest)[..|m|] == m && (m + [NUL] + rest)[|m| + 1..] == rest
  {
    if |m| > 0 {
      var s := m + [NUL] + rest;
      assert s[1..] == m[1..] + [NUL] + rest;
      StrLenFrame(m[1..], rest);
    }
  }

  /** Round trip: non-empty messages without NUL, framed back to back, are received as
      exactly those messages, each cut at its own NUL. */
  lemma {:induction false} FramingRoundTrip(messages: seq<string>)
    requires forall i :: 0 <= i < |messages| ==> |messages[i]| > 0 && NUL !in messages[i]
    ensures Runs(Frames(messages)) == messages
  {
    if |messages| > 0 {
      var m := messages[0];
      var rest := Frames(messages[1..]);
      StrLenFrame(m, rest);
      assert (m + [NUL] + rest)[0] == m[0];
      FramingRoundTrip(messages[1..]);
    }
  }

  /** A NUL at the end adds no message. */
  lemma {:induction false} RunsAppendNul(s: seq<char>)
    ensures Runs(s + [NUL]) == Runs(s)
    decreases |s|
  {
    var t := s + [NUL];
    if |s| == 0 {
      assert t[1..] == [];
    } else if s[0] == NUL {
      assert t[1..] == s[1..] + [NUL];
      RunsAppendNul(s[1..]);
    } else {
      var n := StrLen(s);
      StrLenPrefix(s, [NUL]);
      if n < |s| {
        assert t[n + 1..] == s[n + 1..] + [NUL];
        assert t[..n] == s[..n];
        RunsAppendNul(s[n + 1..]);
      } else {
        assert t[..n] == s;
        assert t[n + 1..] == [];
      }
    }
  }

  /** strlen does not look past the first NUL, and stops at the end of a NUL-free
      prefix when a NUL follows it. */
  lemma StrLenPrefix(s: seq<char>, rest: seq<char>)
    requires |rest| > 0 && rest[0] == NUL
    ensures StrLen(s + rest) == StrLen(s)
  {
    if |s| > 0 && s[0] != NUL {
      assert (s + rest)[1..] == s[1..] + rest;
      StrLenPrefix(s[1..], rest);
    }
  }

  function Datas(msgs: seq<Message>): (r: seq<string>)
    ensures |r| == |msgs| && forall i :: 0 <= i < |msgs| ==> r[i] == msgs[i].data
  {
    if |msgs| == 0 then [] else Datas(msgs[..|msgs| - 1]) + [msgs[|msgs| - 1].data]
  }

  /** The framing loop of socket_run for a chunk of `count` = |received| > 0 bytes. The
      receive buffer is zeroed before every recv, so the byte after the chunk is a NUL.
      Trailing NULs are trimmed down to one byte, the count is bumped by one for the
      terminator, and each maximal NUL-free run becomes one callback, in buffer order. */
  method Frame(received: seq<char>, clientfd: int) returns (msgs: seq<Message>)
    requires |received| > 0
    ensures Datas(msgs) == Runs(received)
    ensures forall i :: 0 <= i < |msgs| ==>
              msgs[i].senderId == clientfd && msgs[i].dataSize == |msgs[i].data| + 1
  {
    var mem := received + [NUL];
    var count := TrimTrailingNuls(received);
    assert mem[..count + 1] == received[..count] + [NUL];
    RunsAppendNul(received[..count]);
    msgs := Deliver(mem, count + 1, clientfd);
  }

  /** The first loop: drop trailing NULs, keeping at least one byte. */
  method TrimTrailingNuls(received: seq<char>) returns (count: nat)
    requires |received| > 0
    ensures 1 <= count <= |received|
    ensures count < |received| ==> received[count] == NUL
    ensures count == 1 || received[count - 1] != NUL
    ensures Runs(received[..count]) == Runs(received)
  {
    count := |received|;
    assert received[..count] == received;
    while count > 1 && received[count - 1] == NUL
      invariant 1 <= count <= |received|
      invariant forall i :: count <= i < |received| ==> received[i] == NUL
      invariant Runs(received[..count]) == Runs(received)
    {
      assert received[..count] == received[..count - 1] + [NUL];
      RunsAppendNul(received[..count - 1]);
      count := count - 1;
    }
  }

  /** The second loop: walk the first `count` bytes, skipping each NUL and handing each
      NUL-terminated run to the callback, advancing by its data_size. */
  method Deliver(mem: seq<char>, count: nat, clientfd: int) returns (msgs: seq<Message>)
    requires 0 < count <= |mem| && mem[count - 1] == NUL
    ensures Datas(msgs) == Runs(mem[..count])
    ensures forall i :: 0 <= i < |msgs| ==>
              msgs[i].senderId == clientfd && msgs[i].dataSize == |msgs[i].data| + 1
  {
    var left := count;
    var data := 0;
    msgs := [];
    ghost var rest := mem[..count];
    assert mem[data..count] == rest;
    while left > 0
      invariant 0 <= data <= count && data + left == count
      invariant rest == mem[data..count]
      invariant Datas(msgs) + Runs(rest) == Runs(mem[..count])
      invariant FromClient(msgs, clientfd)
    {
      RunsStep(rest);
      Subslice(mem, data, count, 1);
      if mem[data] == NUL {
        left := left - 1;
        data := data + 1;
        assert Runs(rest) == Runs(rest[1..]);
        rest := rest[1..];
        continue;
      }
      // the NUL at count - 1 stops strlen inside the chunk
      var n := StrLen(mem[data..count]);
      Subslice(mem, data, count, n);
      Subslice(mem, data, count, n + 1);
      var m := Message(clientfd, mem[data..data + n], n + 1);
      assert Runs(rest) == [m.data] + Runs(rest[n + 1..]);
      DatasAppend(msgs, m);
      AppendAssoc(Datas(msgs), [m.data], Runs(rest[n + 1..]));
      FromClientAppend(msgs, m, clientfd);
      msgs := msgs + [m];
      left := left - m.dataSize;
      data := data + m.dataSize;
      rest := rest[n + 1..];
    }
  }

  /** Every message comes from `clientfd` and counts its terminator in its size. */
  predicate FromClient(msgs: seq<Message>, clientfd: int)
  {
    forall i :: 0 <= i < |msgs| ==> msgs[i].senderId == clientfd && msgs[i].dataSize == |msgs[i].data| + 1
  }

  lemma FromClientAppend(msgs: seq<Message>, m: Message, clientfd: int)
    requires FromClient(msgs, clientfd) && m.senderId == clientfd && m.dataSize == |m.data| + 1
    ensures FromClient(msgs + [m], clientfd)
  {
  }

  lemma DatasAppend(msgs: seq<Message>, m: Message)
    ensures Datas(msgs + [m]) == Datas(msgs) + [m.data]
  {
    assert (msgs + [m])[..|msgs|] == msgs;
  }

  /** Runs, unfolded once on a chunk that ends in a NUL. */
  lemma RunsStep(rest: seq<char>)
    requires |rest| > 0 && rest[|rest| - 1] == NUL
    ensures rest[0] == NUL ==> Runs(rest) == Runs(rest[1..])
    ensures rest[0] != NUL ==>
              StrLen(rest) < |rest| && Runs(rest) == [rest[..StrLen(rest)]] + Runs(rest[StrLen(rest) + 1..])
  {
  }

  /** The sum of the first `n` send results. */
  function Sent(replies: seq<int>, n: nat): int
    requires n <= |replies|
  {
    if n == 0 then 0 else Sent(replies, n - 1) + replies[n - 1]
  }

  /** One call of send: the offset into the buffer and the size asked for. */
  datatype SendCall = SendCall(offset: int, size: int)

  /** The walk of socket_send: call i asks for what is still unsent at the offset reached
      so far, calls go on while that is positive, and the result is the last call's. */
  ghost predicate SendTrace(size: int, replies: seq<int>, ret: int, calls: seq<SendCall>, done: bool)
  {
    |calls| <= |replies| &&
    (forall i :: 0 <= i < |calls| ==>
       calls[i] == SendCall(Sent(replies, i), size - Sent(replies, i)) && size - Sent(replies, i) > 0) &&
    (done <==> size - Sent(replies, |calls|) <= 0) &&
    (!done ==> |calls| == |replies|) &&
    ret == (if |calls| == 0 then -1 else replies[|calls| - 1])
  }

  /** socket_send. `replies[i]` is what the i-th call of send returns; a negative result
      is subtracted like any other, so it makes the remaining size grow. The walk stops
      when the size is no longer positive or when the oracle is exhausted (`done` false,
      where the program would call send again). */
  method Send(buffer: seq<char>, size: int, replies: seq<int>) returns (ret: int, calls: seq<SendCall>, done: bool)
    ensures SendTrace(size, replies, ret, calls, done)
  {
    ret := -1;
    var remaining := size;
    var offset := 0;
    calls := [];
    while remaining > 0 && |calls| < |replies|
      invariant |calls| <= |replies|
      invariant offset == Sent(replies, |calls|) && remaining == size - offset
      invariant forall i :: 0 <= i < |calls| ==>
                  calls[i] == SendCall(Sent(replies, i), size - Sent(replies, i)) && size - Sent(replies, i) > 0
      invariant ret == (if |calls| == 0 then -1 else replies[|calls| - 1])
      decreases |replies| - |calls|
    {
      calls := calls + [SendCall(offset, remaining)];
      ret := replies[|calls| - 1];
      remaining := remaining - ret;
      offset := offset + ret;
    }
    done := remaining <= 0;
  }

  /** When every call moves at least one byte and never more than was asked for, no
      byte is sent twice and the walk needs at most `size` calls. */
  lemma {:induction false} SendCompletes(size: int, replies: seq<int>, n: nat)
    requires size > 0 && n <= |replies|
    requires forall i :: 0 <= i < n ==> 0 < replies[i] <= size - Sent(replies, i)
    ensures n <= Sent(replies, n) <= size
  {
    if n > 0 {
      SendCompletes(size, replies, n - 1);
    }
  }

  /** socket_send_feedback, on a C string (no NUL inside): -1 and no call without a feedback client, otherwise the
      string and its NUL go through socket_send. */
  method SendFeedback(buffer: string, feedbackClient: Option<int>, replies: seq<int>)
    returns (ret: int, calls: seq<SendCall>, done: bool)
    requires NUL !in buffer
    ensures feedbackClient.None? ==> ret == -1 && calls == []
    ensures feedbackClient.Some? ==> SendTrace(|buffer| + 1, replies, ret, calls, done)
    ensures feedbackClient.Some? && |replies| > 0 ==> calls[0] == SendCall(0, |buffer| + 1)
  {
    if feedbackClient.None? {
      return -1, [], false;
    }
    ret, calls, done := Send(buffer + [NUL], |buffer| + 1, replies);
  }
}

// Model of src/dsp/circular_buffer.h: the fixed-capacity ring of samples behind the noise
// gate's window power. Floats are modelled as reals, so the power sum is exact.

module CircularBuffer {

  /** GATE_RINGBUFFER_SIZE: the capacity of the sample array. */
  const CAPACITY: nat := 128

  /** `x` reduced into [0, s) when it is below 2s, the way `% s` does there. */
  function Wrap(x: nat, s: nat): (r: nat)
    requires 0 < s && x < 2 * s
    ensures r < s
  {
    if x < s then x else x - s
  }

  lemma ModSmall(x: nat, s: nat)
    requires 0 < s && x < 2 * s
    ensures x % s == Wrap(x, s)
  {
    if x >= s {
      assert x == s + (x - s);
      assert (x - s) % s == x - s;
    }
  }

  /** The indices of a ring of `s` slots holding `n` samples from `f` on: the slot after
      the newest, `b`, is the slot after the window. */
  predicate Ring(b: nat, f: nat, n: nat, s: nat)
  {
    0 < s && b < s && f < s && n <= s && Wrap(b + 1, s) == Wrap(f + n, s)
  }

  /** A push moves the back on one slot: onto the front when the ring is full, which then
      moves on too, and onto the free slot after the window otherwise. */
  lemma RingPush(b: nat, f: nat, n: nat, s: nat)
    requires Ring(b, f, n, s)
    ensures n == s ==> Wrap(b + 1, s) == f && Ring(Wrap(b + 1, s), Wrap(f + 1, s), n, s)
    ensures n < s ==> Wrap(b + 1, s) == Wrap(f + n, s) && Ring(Wrap(b + 1, s), f, n + 1, s)
  {
  }

  /** A pop moves the front on one slot and leaves the back. */
  lemma RingPop(b: nat, f: nat, n: nat, s: nat)
    requires Ring(b, f, n, s) && n > 0
    ensures Ring(b, Wrap(f + 1, s), n - 1, s)
    ensures b == Wrap(f + n - 1, s)
  {
  }

  /** Dropping the `d` oldest samples moves the front on `d` slots. */
  lemma RingDrop(b: nat, f: nat, n: nat, s: nat, d: nat)
    requires Ring(b, f, n, s) && d <= n
    ensures Ring(b, Wrap(f + d, s), n - d, s)
  {
  }

  /** A window of `m` samples from `f` on ends at the slot `m - 1` places after `f`. */
  lemma RingTake(f: nat, m: nat, s: nat)
    requires 0 < m <= s && f < s
    ensures Ring(Wrap(f + m - 1, s), f, m, s)
  {
  }

  /** `x % s` for the indices the ring computes, which stay below 2s. */
  function Mod(x: nat, s: nat): (r: nat)
    requires 0 < s && x < 2 * s
    ensures r == Wrap(x, s)
  {
    ModSmall(x, s);
    x % s
  }

  /** The sum of a window of samples. */
  function Sum(s: seq<real>): real
  {
    if |s| == 0 then 0.0 else Sum(s[..|s| - 1]) + s[|s| - 1]
  }

  /** Dropping the oldest sample takes it out of the sum. */
  lemma {:induction false} SumTail(s: seq<real>)
    requires |s| > 0
    ensures Sum(s[1..]) == Sum(s) - s[0]
  {
    if |s| > 1 {
      SumTail(s[..|s| - 1]);
      assert s[..|s| - 1][1..] == s[1..][..|s| - 2];
    }
  }

  /** A full window slid on by one sample: the oldest leaves the sum and the newest
      enters it. */
  lemma SumSlide(s: seq<real>, x: real)
    requires |s| > 0
    ensures Sum(s[1..] + [x]) == Sum(s) - s[0] + x
  {
    SumTail(s);
    SumAppend(s[1..], x);
  }

  lemma SumAppend(s: seq<real>, x: real)
    ensures Sum(s + [x]) == Sum(s) + x
  {
    assert (s + [x])[..|s|] == s;
  }

  /** The `n` slots of `a` from `f` on, wrapping at `s`, oldest first. */
  function View(a: seq<real>, f: nat, n: nat, s: nat): (w: seq<real>)
    requires 0 < s <= |a| && f < s && n <= s
    ensures |w| == n
  {
    if n == 0 then [] else View(a, f, n - 1, s) + [a[Wrap(f + n - 1, s)]]
  }

  /** Slot `k` of a window is the array slot `k` places after its front. */
  lemma {:induction false} ViewAt(a: seq<real>, f: nat, n: nat, s: nat, k: nat)
    requires 0 < s <= |a| && f < s && k < n <= s
    ensures View(a, f, n, s)[k] == a[Wrap(f + k, s)]
  {
    if k < n - 1 {
      ViewAt(a, f, n - 1, s, k);
    }
  }

  /** Storing at the newest slot of a window replaces its newest sample only. */
  lemma ViewUpdate(a: seq<real>, f: nat, n: nat, s: nat, p: nat, x: real)
    requires 0 < s <= |a| && f < s && 0 < n <= s && p == Wrap(f + n - 1, s)
    ensures View(a[p := x], f, n, s) == View(a, f, n, s)[..n - 1] + [x]
  {
    var l := View(a[p := x], f, n, s);
    var r := View(a, f, n, s)[..n - 1] + [x];
    forall k | 0 <= k < n
      ensures l[k] == r[k]
    {
      ViewAt(a[p := x], f, n, s, k);
      if k < n - 1 {
        ViewAt(a, f, n, s, k);
        assert Wrap(f + k, s) != p;
      }
    }
  }

  /** A full window moved on by one slot: the oldest sample leaves and the slot it held
      comes back as the newest. */
  lemma ViewRotate(a: seq<real>, f: nat, s: nat)
    requires 0 < s <= |a| && f < s
    ensures View(a, Wrap(f + 1, s), s, s) == View(a, f, s, s)[1..] + [a[f]]
  {
    var l := View(a, Wrap(f + 1, s), s, s);
    var r := View(a, f, s, s)[1..] + [a[f]];
    forall k | 0 <= k < s
      ensures l[k] == r[k]
    {
      ViewAt(a, Wrap(f + 1, s), s, s, k);
      if k < s - 1 {
        ViewAt(a, f, s, s, k + 1);
        assert Wrap(Wrap(f + 1, s) + k, s) == Wrap(f + k + 1, s);
      }
    }
  }

  /** The oldest `d` samples of a window dropped: what is left starts `d` slots on. */
  lemma ViewDrop(a: seq<real>, f: nat, n: nat, s: nat, d: nat)
    requires 0 < s <= |a| && f < s && d <= n <= s
    ensures View(a, f, n, s)[d..] == View(a, Wrap(f + d, s), n - d, s)
  {
    var l := View(a, f, n, s)[d..];
    var r := View(a, Wrap(f + d, s), n - d, s);
    forall k | 0 <= k < n - d
      ensures l[k] == r[k]
    {
      ViewAt(a, f, n, s, d + k);
      ViewAt(a, Wrap(f + d, s), n - d, s, k);
      assert Wrap(Wrap(f + d, s) + k, s) == Wrap(f + d + k, s);
    }
  }

  /** The newest samples of a window dropped: the front stays and the window is shorter. */
  lemma ViewTake(a: seq<real>, f: nat, n: nat, s: nat, m: nat)
    requires 0 < s <= |a| && f < s && m <= n <= s
    ensures View(a, f, n, s)[..m] == View(a, f, m, s)
  {
    var l := View(a, f, n, s)[..m];
    var r := View(a, f, m, s);
    forall k | 0 <= k < m
      ensures l[k] == r[k]
    {
      ViewAt(a, f, n, s, k);
      ViewAt(a, f, m, s, k);
    }
  }

  /** The share of one sample in a window of `n`: x * (1 / n). */
  function Share(x: real, n: nat): real
    requires n > 0
  {
    x * (1.0 / n as real)
  }

  /** ringbuffer_t. */
  class Ringbuffer {
    var S: nat
    var size: nat
    var front: nat
    var back: nat
    var buffer: array<real>
    var power: real
    /** The samples in the window, oldest first. */
    ghost var samples: seq<real>

    /** The slot after back is the slot after the window (m_back is m_front + m_size - 1
        modulo S), and `samples` is what the window's slots hold. */
    ghost predicate Valid()
      reads this, buffer
    {
      buffer.Length == CAPACITY && S <= CAPACITY && Ring(back, front, size, S) &&
      samples == View(buffer[..], front, size, S)
    }

    /** The state ringbuffer_clear leaves for `n` slots. */
    ghost predicate Cleared(n: nat)
      reads this, buffer
    {
      S == n && size == 0 && front == 0 && back == n - 1 && power == 0.0 && samples == [] &&
      buffer.Length == CAPACITY && forall i :: 0 <= i < CAPACITY ==> buffer[i] == 0.0
    }

    constructor (n: nat)
      requires 0 < n <= CAPACITY
      ensures Valid() && fresh(buffer) && Cleared(n)
    {
      S, size, front, back, power := n, 0, 0, n - 1, 0.0;
      buffer := new real[CAPACITY](_ => 0.0);
      samples := [];
    }

    /** ringbuffer_clear. The size must be 1 to 128: `% S` is taken later and the array
        holds 128 slots. */
    method Clear(n: nat)
      requires buffer.Length == CAPACITY && 0 < n <= CAPACITY
      modifies this, buffer
      ensures Valid() && Cleared(n) && buffer == old(buffer)
    {
      S := n;
      size := 0;
      front := 0;
      back := n - 1;
      power := 0.0;
      samples := [];
      var i := 0;
      while i < CAPACITY
        modifies buffer
        invariant 0 <= i <= CAPACITY
        invariant forall j :: 0 <= j < i ==> buffer[j] == 0.0
      {
        buffer[i] := 0.0;
        i := i + 1;
      }
    }

    /** ringbuffer_push: one more slot at the back, dropping the oldest when full. The
        new slot keeps whatever value it held. */
    method Push()
      requires Valid()
      modifies this`back, this`front, this`size, this`samples
      ensures Valid()
      ensures back == Wrap(old(back) + 1, S)
      ensures old(size) == S ==> front == Wrap(old(front) + 1, S) && size == S
      ensures old(size) < S ==> front == old(front) && size == old(size) + 1
      ensures samples == (if old(size) == S then old(samples)[1..] else old(samples)) + [buffer[back]]
    {
      ghost var a := buffer[..];
      RingPush(back, front, size, S);
      back := Mod(back + 1, S);
      if size == S {
        ViewRotate(a, front, S);
        front := Mod(front + 1, S);
        samples := samples[1..] + [a[back]];
      } else {
        size := size + 1;
        samples := samples + [a[back]];
      }
    }

    /** ringbuffer_push_sample. */
    method PushSample(x: real)
      requires Valid()
      modifies this`back, this`front, this`size, this`samples, buffer
      ensures Valid() && unchanged(this`power)
      ensures old(size) == S ==> size == S
      ensures old(size) < S ==> size == old(size) + 1
      ensures samples == (if old(size) == S then old(samples)[1..] else old(samples)) + [x]
      ensures forall i :: 0 <= i < CAPACITY && i != back ==> buffer[i] == old(buffer[i])
    {
      Push();
      ghost var a := buffer[..];
      buffer[back] := x;
      assert buffer[..] == a[back := x];
      ViewUpdate(a, front, size, S, back, x);
      samples := samples[..size - 1] + [x];
    }

    /** ringbuffer_pop: the oldest sample leaves; nothing happens when empty. */
    method Pop()
      requires Valid()
      modifies this`front, this`size, this`samples
      ensures Valid()
      ensures old(size) == 0 ==> size == 0 && front == old(front)
      ensures old(size) > 0 ==> size == old(size) - 1 && front == Wrap(old(front) + 1, S)
      ensures samples == if old(size) == 0 then [] else old(samples)[1..]
    {
      if size > 0 {
        RingPop(back, front, size, S);
        ViewDrop(buffer[..], front, size, S, 1);
        size := size - 1;
        front := Mod(front + 1, S);
        samples := samples[1..];
      }
    }

    /** ringbuffer_front: the oldest sample when the window is not empty. */
    method Front() returns (v: real)
      requires Valid()
      ensures v == buffer[front]
      ensures size > 0 ==> v == samples[0]
    {
      v := buffer[front];
      if size > 0 {
        ViewAt(buffer[..], front, size, S, 0);
      }
    }

    /** ringbuffer_back: the newest sample when the window is not empty. */
    method Back() returns (v: real)
      requires Valid()
      ensures v == buffer[back]
      ensures size > 0 ==> v == samples[size - 1]
    {
      v := buffer[back];
      if size > 0 {
        RingPop(back, front, size, S);
        ViewAt(buffer[..], front, size, S, size - 1);
      }
    }

    method Empty() returns (r: bool)
      requires Valid()
      ensures r <==> samples == []
    {
      r := size == 0;
    }

    method Full() returns (r: bool)
      requires Valid()
      ensures r <==> |samples| == S
    {
      r := size == S;
    }

    /** ringbuffer_back_erase: drops the `n` newest samples, or clears when that is all. */
    method BackErase(n: nat)
      requires Valid()
      modifies this, buffer
      ensures Valid() && buffer == old(buffer)
      ensures n >= old(size) ==> Cleared(old(S))
      ensures n < old(size) ==> samples == old(samples)[..old(size) - n] && power == old(power) &&
                                unchanged(buffer) && S == old(S) && front == old(front)
    {
      if n >= size {
        Clear(S);
      } else {
        ViewTake(buffer[..], front, size, S, size - n);
        RingTake(front, size - n, S);
        size := size - n;
        back := Mod(front + size - 1, S);
        samples := samples[..size];
      }
    }

    /** ringbuffer_front_erase: drops the `n` oldest samples, or clears when that is all. */
    method FrontErase(n: nat)
      requires Valid()
      modifies this, buffer
      ensures Valid() && buffer == old(buffer)
      ensures n >= old(size) ==> Cleared(old(S))
      ensures n < old(size) ==> samples == old(samples)[n..] && power == old(power) &&
                                unchanged(buffer) && S == old(S) && back == old(back)
    {
      if n >= size {
        Clear(S);
      } else {
        ViewDrop(buffer[..], front, size, S, n);
        RingDrop(back, front, size, S, n);
        size := size - n;
        front := Mod(front + n, S);
        samples := samples[n..];
      }
    }

    /** ringbuffer_peek_index over all S slots, window or not. */
    method PeekIndex() returns (r: nat)
      requires Valid()
      ensures r < S
      ensures (forall i :: 0 <= i < S ==> buffer[i] <= 0.0) ==> r == 0
      ensures (exists i :: 0 <= i < S && buffer[i] > 0.0) ==>
                buffer[r] > 0.0 && (forall i :: 0 <= i < S ==> buffer[i] <= buffer[r]) &&
                (forall i :: 0 <= i < r ==> buffer[i] < buffer[r])
    {
      var peekIndex := 0;
      var peekValue := 0.0;
      var i := 0;
      while i < S
        invariant 0 <= i <= S
        invariant peekValue >= 0.0 && forall j :: 0 <= j < i ==> buffer[j] <= peekValue
        invariant peekIndex < S && peekIndex <= i
        invariant peekValue > 0.0 ==> buffer[peekIndex] == peekValue && forall j :: 0 <= j < peekIndex ==> buffer[j] < peekValue
        invariant peekValue == 0.0 ==> peekIndex == 0
      {
        if peekValue < buffer[i] {
          peekValue := buffer[i];
          peekIndex := i;
        }
        i := i + 1;
      }
      r := peekIndex;
    }

    /** ringbuffer_push_and_calculate_power: the new sample is |input| / S; the power
        gains it and, when the window is full, loses the oldest. */
    method PushAndCalculatePower(input: real) returns (p: real)
      requires Valid()
      modifies this`back, this`front, this`size, this`power, this`samples, buffer
      ensures Valid() && p == power
      ensures samples == (if old(size) == S then old(samples)[1..] else old(samples)) + [Share(Abs(input), S)]
      ensures old(power) == Sum(old(samples)) ==> power == Sum(samples)
      ensures power == old(power) + Share(Abs(input), S) - (if old(size) == S then old(samples)[0] else 0.0)
      ensures forall i :: 0 <= i < CAPACITY && i != back ==> buffer[i] == old(buffer[i])
    {
      var pow := Share(Abs(input), S);
      if size < S {
        SumAppend(samples, pow);
        power := power + pow;
        PushSample(pow);
      } else {
        var f := Front();
        SumSlide(samples, pow);
        power := power + pow - f;
        Pop();
        PushSample(pow);
      }
      p := power;
    }
  }

  /** sqrt(x * x) with exact arithmetic. */
  function Abs(x: real): (r: real)
    ensures r >= 0.0 && (r == x || r == -x)
  {
    if x < 0.0 then -x else x
  }
}

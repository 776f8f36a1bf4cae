/** A ring buffer with one slot kept empty, and the sequence it stands for. */
module Rings {

  /** Both the pipe buffer and the terminal's ready buffer have this many slots. */
  const RING_SIZE: nat := 4096

  /** The elements from `tail` up to `head`, going round. */
  ghost function Ring<T>(buffer: seq<T>, head: nat, tail: nat): seq<T>
    requires |buffer| == RING_SIZE && head < RING_SIZE && tail < RING_SIZE
  {
    if tail <= head then buffer[tail..head] else buffer[tail..] + buffer[..head]
  }

  /** How far the head is ahead of the tail. */
  function Distance(head: nat, tail: nat): (k: int) {
    if tail <= head then head - tail else head + RING_SIZE - tail
  }

  lemma DistanceIsMod(head: nat, tail: nat)
    requires head < RING_SIZE && tail < RING_SIZE
    ensures (head + RING_SIZE - tail) % RING_SIZE == Distance(head, tail)
  {
  }

  lemma RingSize<T>(buffer: seq<T>, head: nat, tail: nat)
    requires |buffer| == RING_SIZE && head < RING_SIZE && tail < RING_SIZE
    ensures |Ring(buffer, head, tail)| == Distance(head, tail)
  {
  }

  /** Writing at the head and moving it on appends an element. */
  lemma RingPut<T>(buffer: seq<T>, head: nat, tail: nat, b: T)
    requires |buffer| == RING_SIZE && head < RING_SIZE && tail < RING_SIZE
    requires (head + 1) % RING_SIZE != tail
    ensures Ring(buffer[head := b], (head + 1) % RING_SIZE, tail) == Ring(buffer, head, tail) + [b]
  {
  }

  lemma DropFirst<T>(s: seq<T>, i: nat, j: nat)
    requires i < j <= |s|
    ensures s[i..j] == [s[i]] + s[i + 1..j]
  {
  }

  lemma RingTakeLast<T>(buffer: seq<T>, head: nat)
    requires |buffer| == RING_SIZE && head < RING_SIZE - 1
    ensures Ring(buffer, head, RING_SIZE - 1) == [buffer[RING_SIZE - 1]] + Ring(buffer, head, 0)
  {
    assert buffer[0..head] == buffer[..head];
    assert buffer[RING_SIZE - 1..] == [buffer[RING_SIZE - 1]];
  }

  lemma RingTakeInner<T>(buffer: seq<T>, head: nat, tail: nat)
    requires |buffer| == RING_SIZE && head < RING_SIZE && tail < RING_SIZE - 1 && head != tail
    ensures Ring(buffer, head, tail) == [buffer[tail]] + Ring(buffer, head, tail + 1)
  {
    if tail < head {
      DropFirst(buffer, tail, head);
    } else {
      DropFirst(buffer, tail, RING_SIZE);
      assert buffer[tail..] == buffer[tail..RING_SIZE] && buffer[tail + 1..] == buffer[tail + 1..RING_SIZE];
      var a, b := buffer[tail + 1..], buffer[..head];
      assert ([buffer[tail]] + a) + b == [buffer[tail]] + (a + b);
    }
  }

  /** Moving the tail on drops the first element. */
  lemma RingTake<T>(buffer: seq<T>, head: nat, tail: nat)
    requires |buffer| == RING_SIZE && head < RING_SIZE && tail < RING_SIZE && head != tail
    ensures Ring(buffer, head, tail) == [buffer[tail]] + Ring(buffer, head, (tail + 1) % RING_SIZE)
  {
    if tail == RING_SIZE - 1 {
      RingTakeLast(buffer, head);
      assert (tail + 1) % RING_SIZE == 0;
    } else {
      RingTakeInner(buffer, head, tail);
      assert (tail + 1) % RING_SIZE == tail + 1;
    }
  }

  lemma TakeStep<T>(buffer: seq<T>, head: nat, tail: nat, whole: seq<T>, count: nat)
    requires |buffer| == RING_SIZE && head < RING_SIZE && tail < RING_SIZE && head != tail
    requires count <= |whole| && Ring(buffer, head, tail) == whole[count..]
    ensures count < |whole| && buffer[tail] == whole[count] &&
      Ring(buffer, head, (tail + 1) % RING_SIZE) == whole[count + 1..]
  {
    RingTake(buffer, head, tail);
    var rest := Ring(buffer, head, (tail + 1) % RING_SIZE);
    assert whole[count..] == [buffer[tail]] + rest;
    assert whole[count] == whole[count..][0];
    assert whole[count + 1..] == whole[count..][1..] == rest;
  }

  lemma SliceGrows<T>(s: seq<T>, i: nat, j: nat)
    requires i <= j < |s|
    ensures s[i..j + 1] == s[i..j] + [s[j]]
  {
  }

  lemma SliceJoin<T>(s: seq<T>, i: nat, j: nat, k: nat)
    requires i <= j <= k <= |s|
    ensures s[i..k] == s[i..j] + s[j..k]
  {
  }
}

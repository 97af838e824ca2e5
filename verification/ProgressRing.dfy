/** The bounded progress buffer: a ring that refines the full history of publications. */
module ProgressRing {

  /** One publication: drop the oldest value of a full buffer, then append. */
  function Push(buffer: seq<nat>, capacity: nat, value: nat): seq<nat> {
    (if |buffer| == capacity && buffer != [] then buffer[1..] else buffer) + [value]
  }

  /** The last `min(|history|, capacity)` values of a history, in order. */
  function Latest(history: seq<nat>, capacity: nat): (r: seq<nat>)
    ensures |r| == if |history| < capacity then |history| else capacity
    ensures r == history[|history| - |r|..]
  {
    if |history| < capacity then history else history[|history| - capacity..]
  }

  lemma PushRefinesHistory(history: seq<nat>, capacity: nat, value: nat)
    requires capacity > 0
    ensures Push(Latest(history, capacity), capacity, value) == Latest(history + [value], capacity)
  {
    var h := history + [value];
    if |history| >= capacity {
      assert h[|h| - capacity..] == history[|history| - capacity..][1..] + [value];
    } else if |history| + 1 == capacity {
      assert h[0..] == h;
    }
  }
}

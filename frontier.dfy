/**
 * The frontier of a breadth-first crawl, shared by the Python and the
 * TypeScript crawlers: a FIFO queue of entries tagged with their depth. Pages
 * are popped from the front and their links appended one level deeper, so
 * the depths along the queue never decrease and span at most two levels.
 * The measure (levels left below the front, entries on the front level)
 * decreases with every visit, which is why the crawl loops end.
 */
module Frontier {

  /** Depths never decrease along the queue and span at most two levels. */
  predicate Layered<T>(queue: seq<(T, int)>) {
    forall i, j :: 0 <= i < j < |queue| ==> queue[i].1 <= queue[j].1 <= queue[i].1 + 1
  }

  function CountAt<T>(queue: seq<(T, int)>, depth: int): nat {
    if queue == [] then 0 else (if queue[0].1 == depth then 1 else 0) + CountAt(queue[1..], depth)
  }

  lemma {:induction false} CountAtAppend<T>(a: seq<(T, int)>, b: seq<(T, int)>, depth: int)
    ensures CountAt(a + b, depth) == CountAt(a, depth) + CountAt(b, depth)
    decreases |a|
  {
    if a == [] {
      assert a + b == b;
    } else {
      assert (a + b)[1..] == a[1..] + b;
      CountAtAppend(a[1..], b, depth);
    }
  }

  lemma {:induction false} CountAtNone<T>(queue: seq<(T, int)>, depth: int)
    requires forall i :: 0 <= i < |queue| ==> queue[i].1 != depth
    ensures CountAt(queue, depth) == 0
    decreases |queue|
  {
    if queue != [] {
      CountAtNone(queue[1..], depth);
    }
  }

  /** How many levels are left below the front of the frontier, for a depth bound `levels`. */
  function LevelsLeft<T>(queue: seq<(T, int)>, levels: int): int {
    if queue == [] then 0 else levels - queue[0].1
  }

  /** How many entries share the front entry's depth. */
  function FrontCount<T>(queue: seq<(T, int)>): nat {
    if queue == [] then 0 else CountAt(queue, queue[0].1)
  }

  /** The measure of the frontier went down: fewer levels left, or fewer entries on the front level. */
  predicate Progress<T>(next: seq<(T, int)>, queue: seq<(T, int)>, levels: int) {
    && 0 <= LevelsLeft(next, levels)
    && (LevelsLeft(next, levels) < LevelsLeft(queue, levels)
        || (LevelsLeft(next, levels) == LevelsLeft(queue, levels) && FrontCount(next) < FrontCount(queue)))
  }

  /**
   * Popping the front entry and appending entries one level deeper keeps the
   * frontier layered and makes progress: either the front level is finished,
   * or one entry fewer remains on it.
   */
  lemma QueueStep<T>(queue: seq<(T, int)>, added: seq<(T, int)>, levels: int)
    requires queue != [] && Layered(queue)
    requires forall i :: 0 <= i < |queue| ==> 0 <= queue[i].1 < levels
    requires forall i :: 0 <= i < |added| ==> added[i].1 == queue[0].1 + 1 < levels
    ensures var next := queue[1..] + added;
      && Layered(next)
      && (forall i :: 0 <= i < |next| ==> 0 <= next[i].1 < levels)
      && Progress(next, queue, levels)
  {
    var next := queue[1..] + added;
    var d := queue[0].1;
    if next != [] && next[0].1 == d {
      assert |queue| > 1 && next[0] == queue[1];
      assert FrontCount(queue) == 1 + CountAt(queue[1..], d);
      CountAtAppend(queue[1..], added, d);
      CountAtNone(added, d);
    }
  }
}

/**
 * The listener probe (`get_listener_count`): how the already-parsed Icecast
 * stats document is turned into a listener total.
 *
 * Python's dynamic typing is made explicit: an element that is not a JSON
 * object makes `.get` raise, and every exception is turned into 0.
 */
module Listeners {
  import opened Wrappers

  /** One element of the `source` field: an object whose `listeners` key may
      be absent, or some other JSON value. */
  datatype Entry = Object(listeners: Option<int>) | NonObject

  /** The `source` field: a single object or a JSON list of them. */
  datatype Source = Single(entry: Entry) | Many(entries: seq<Entry>)

  /** The `icestats` field: an object whose `source` key may be absent, or
      some other JSON value. */
  datatype Icestats = Stats(source: Option<Source>) | NonObjectStats

  /** What the stats request produced: nothing usable (network error, timeout,
      HTTP error, a body that is not JSON or not an object), or a parsed
      object whose `icestats` key may be absent. */
  datatype StatsReply = Unavailable | Document(icestats: Option<Icestats>)

  predicate AllObjects(es: seq<Entry>) {
    forall i :: 0 <= i < |es| ==> es[i].Object?
  }

  /** No listener count present anywhere in the reply is negative (as Icecast
      reports them). */
  predicate CountsNonNegative(reply: StatsReply) {
    (reply.Document? && reply.icestats.Some? && reply.icestats.value.Stats? &&
     reply.icestats.value.source.Some?) ==>
      match reply.icestats.value.source.value
      case Single(e) => e.Object? ==> e.listeners.GetOr(0) >= 0
      case Many(es) => forall i :: 0 <= i < |es| ==> es[i].Object? ==> es[i].listeners.GetOr(0) >= 0
  }

  /** `sum(s.get("listeners", 0) for s in source)`: the sum with an absent
      count read as 0, or None when `.get` raises on an element. */
  function SumListeners(es: seq<Entry>): (total: Option<int>)
    ensures total.Some? <==> AllObjects(es)
    ensures total.Some? && (forall i :: 0 <= i < |es| ==> es[i].listeners.GetOr(0) >= 0) ==> total.value >= 0
  {
    if es == [] then Some(0)
    else
      assert forall i :: 0 <= i < |es| - 1 ==> es[1..][i] == es[i + 1];
      match (es[0], SumListeners(es[1..]))
      case (Object(n), Some(rest)) => Some(n.GetOr(0) + rest)
      case _ => None
  }

  /** The listener total the probe reports; every failure reads as 0. */
  function ListenerCount(reply: StatsReply): (n: int)
    ensures reply.Unavailable? ==> n == 0
    ensures reply.Document? && (reply.icestats.None? || reply.icestats.value.NonObjectStats?) ==> n == 0
    ensures (reply.Document? && reply.icestats.Some? && reply.icestats.value.Stats? &&
             reply.icestats.value.source.None?) ==> n == 0
    ensures reply == Document(Some(Stats(Some(Single(NonObject))))) ==> n == 0
    ensures CountsNonNegative(reply) ==> n >= 0
  {
    match reply
    case Unavailable => 0
    // `data.get("icestats", {}).get("source", {})` is `{}`, whose listeners default to 0
    case Document(None) => 0
    case Document(Some(NonObjectStats)) => 0
    case Document(Some(Stats(None))) => 0
    case Document(Some(Stats(Some(Single(Object(n)))))) => n.GetOr(0)
    case Document(Some(Stats(Some(Single(NonObject))))) => 0
    case Document(Some(Stats(Some(Many(es))))) => SumListeners(es).GetOr(0)
  }

  /** The listener counts present in a list of sources, in order. */
  function PresentCounts(es: seq<Entry>): seq<int> {
    if es == [] then []
    else (if es[0].Object? && es[0].listeners.Some? then [es[0].listeners.value] else [])
         + PresentCounts(es[1..])
  }

  /** Sum of a sequence of integers, added from the back. */
  function Total(xs: seq<int>): int {
    if xs == [] then 0 else Total(xs[..|xs| - 1]) + xs[|xs| - 1]
  }

  lemma {:induction false} TotalAppend(a: seq<int>, b: seq<int>)
    ensures Total(a + b) == Total(a) + Total(b)
    decreases |b|
  {
    if b != [] {
      assert (a + b)[..|a + b| - 1] == a + b[..|b| - 1];
      TotalAppend(a, b[..|b| - 1]);
    } else {
      assert a + b == a;
    }
  }

  lemma {:induction false} SumIsTotalOfPresent(es: seq<Entry>)
    requires AllObjects(es)
    ensures SumListeners(es) == Some(Total(PresentCounts(es)))
  {
    if es != [] {
      assert AllObjects(es[1..]) by {
        assert forall i :: 0 <= i < |es| - 1 ==> es[1..][i] == es[i + 1];
      }
      SumIsTotalOfPresent(es[1..]);
      var head := if es[0].listeners.Some? then [es[0].listeners.value] else [];
      TotalAppend(head, PresentCounts(es[1..]));
      assert Total(head) == es[0].listeners.GetOr(0) by {
        if head != [] { assert head[..0] == []; }
      }
    }
  }

  /** A list of sources: the total is the sum of the counts present (an
      absent count adds nothing); a non-object element makes it 0. */
  lemma ListOfSourcesTotal(es: seq<Entry>)
    ensures AllObjects(es) ==> ListenerCount(Document(Some(Stats(Some(Many(es)))))) == Total(PresentCounts(es))
    ensures !AllObjects(es) ==> ListenerCount(Document(Some(Stats(Some(Many(es)))))) == 0
  {
    if AllObjects(es) {
      SumIsTotalOfPresent(es);
    }
  }

  /** A single source object counts the same as a one-element list holding it. */
  lemma SingleAgreesWithList(e: Entry)
    ensures ListenerCount(Document(Some(Stats(Some(Single(e)))))) ==
            ListenerCount(Document(Some(Stats(Some(Many([e]))))))
    ensures ListenerCount(Document(Some(Stats(Some(Single(e)))))) ==
            (if e.Object? && e.listeners.Some? then e.listeners.value else 0)
  {
    assert [e][1..] == [];
    assert SumListeners([e]) == if e.Object? then Some(e.listeners.GetOr(0)) else None;
  }
}

/** One direction of the link as its users have it: the sender's cycle holds the
    latest version only, and what a pass of its DMA samples is on its way to the
    reader, whose ring holds one version at a time. */
module LatestValue {
  /** way: the versions on their way, oldest first; the first is the one that the ring
      holds once it has come in. seen: the versions up to the last one read. */
  datatype Inbox = Inbox(way: seq<nat>, seen: nat)

  /** After its init the ring holds nothing, and nothing has been read. */
  const FRESH := Inbox([], 0)

  /** A pass of the sender's DMA samples the latest version. */
  function Sampled(r: Inbox, latest: nat): Inbox {
    r.(way := r.way + [latest])
  }

  /** The next one overwrites what the ring holds. */
  function Arrived(r: Inbox): Inbox
    requires |r.way| > 1
  {
    r.(way := r.way[1..])
  }

  /** read() returns what the ring holds as new if it is not what it returned last. */
  predicate CanRead(r: Inbox) {
    r.way != [] && r.way[0] >= r.seen
  }

  function HasRead(r: Inbox): Inbox
    requires CanRead(r)
  {
    r.(seen := r.way[0] + 1)
  }

  /** The sender goes down: what is on its way comes in, and nothing follows. */
  function Settled(r: Inbox): Inbox {
    if |r.way| > 1 then r.(way := [r.way[|r.way| - 1]]) else r
  }

  /** Versions come in the order in which they were written. */
  ghost predicate InOrder(r: Inbox, count: nat) {
    && (forall k: nat | k < |r.way| :: r.way[k] < count)
    && (forall j: nat, k: nat | j < k < |r.way| :: r.way[j] <= r.way[k])
    && r.seen <= count
  }

  lemma SampledInOrder(r: Inbox, count: nat)
    requires InOrder(r, count) && count > 0
    ensures InOrder(Sampled(r, count - 1), count)
  {
  }

  lemma ArrivedInOrder(r: Inbox, count: nat)
    requires InOrder(r, count) && |r.way| > 1
    ensures InOrder(Arrived(r), count)
  {
  }

  lemma ReadInOrder(r: Inbox, count: nat)
    requires InOrder(r, count) && CanRead(r)
    ensures InOrder(HasRead(r), count) && HasRead(r).seen > r.seen
  {
  }

  lemma SettledInOrder(r: Inbox, count: nat)
    requires InOrder(r, count)
    ensures InOrder(Settled(r), count) && InOrder(FRESH, count)
  {
  }
}

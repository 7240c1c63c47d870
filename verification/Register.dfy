/** One direction of the link as a register of its own: versions are written, sampled
    by the sender's DMA, come in, and are taken by the reader. */
module Register {
  import opened LatestValue

  /** count: versions written, numbered from 0. taken: those that were returned. */
  datatype Register = Register(count: nat, inbox: Inbox, taken: seq<nat>)

  datatype Event = Written | Sample | Arrive | Take

  predicate Does(r: Register, x: Event, r': Register) {
    match x
    case Written => r' == r.(count := r.count + 1)
    case Sample => r.count > 0 && r' == r.(inbox := Sampled(r.inbox, r.count - 1))
    case Arrive => |r.inbox.way| > 1 && r' == r.(inbox := Arrived(r.inbox))
    case Take => CanRead(r.inbox) && r' == r.(inbox := HasRead(r.inbox), taken := r.taken + [r.inbox.way[0]])
  }

  ghost predicate IsPath(path: seq<Register>, events: seq<Event>) {
    |path| == |events| + 1 && forall n: nat | n < |events| :: Does(path[n], events[n], path[n + 1])
  }

  function End(path: seq<Register>): Register
    requires |path| > 0
  {
    path[|path| - 1]
  }

  lemma Longer(path: seq<Register>, events: seq<Event>, x: Event, r: Register)
    returns (path': seq<Register>, events': seq<Event>)
    requires IsPath(path, events) && Does(End(path), x, r)
    ensures IsPath(path', events') && path'[0] == path[0] && End(path') == r
  {
    path', events' := path + [r], events + [x];
  }

  function From(a: nat, b: nat): (w: seq<nat>)
    requires a <= b
    ensures |w| == b - a
  {
    seq(b - a, i requires 0 <= i < b - a => a + i)
  }

  /** All versions since the lowest that can be taken next are on their way. */
  ghost predicate Lined(r: Register, lowest: nat) {
    && lowest <= r.count && r.inbox.way == From(lowest, r.count)
    && r.inbox.seen == if r.taken == [] then 0 else lowest + 1
  }

  /** The ring comes to hold version v, which is read. */
  lemma Taking(path: seq<Register>, events: seq<Event>, lowest: nat, v: nat)
    returns (path': seq<Register>, events': seq<Event>)
    requires IsPath(path, events) && Lined(End(path), lowest)
    requires lowest <= v < End(path).count && End(path).inbox.seen <= v
    ensures IsPath(path', events') && path'[0] == path[0] && Lined(End(path'), v)
    ensures End(path').count == End(path).count && End(path').taken == End(path).taken + [v]
  {
    path', events' := path, events;
    var r := End(path);
    for a := lowest to v
      invariant IsPath(path', events') && path'[0] == path[0]
      invariant End(path') == r.(inbox := Inbox(From(a, r.count), r.inbox.seen))
    {
      assert From(a, r.count)[1..] == From(a + 1, r.count);
      path', events' := Longer(path', events', Arrive, r.(inbox := Inbox(From(a + 1, r.count), r.inbox.seen)));
    }
    path', events' := Longer(path', events', Take, Register(r.count, Inbox(From(v, r.count), v + 1), r.taken + [v]));
  }

  /** A version is written, and sampled. */
  lemma Writing(path: seq<Register>, events: seq<Event>, lowest: nat)
    returns (path': seq<Register>, events': seq<Event>)
    requires IsPath(path, events) && Lined(End(path), lowest)
    ensures IsPath(path', events') && path'[0] == path[0] && Lined(End(path'), lowest)
    ensures End(path').count == End(path).count + 1 && End(path').taken == End(path).taken
  {
    var r := End(path);
    var w := r.(count := r.count + 1);
    path', events' := Longer(path, events, Written, w);
    assert Sampled(r.inbox, r.count).way == From(lowest, r.count + 1);
    path', events' := Longer(path', events', Sample, w.(inbox := Sampled(r.inbox, r.count)));
  }

  /** A reader begins: what is on the wire then is sampled. */
  lemma Starting(count: nat) returns (path: seq<Register>, events: seq<Event>)
    ensures IsPath(path, events) && path[0] == Register(count, FRESH, [])
    ensures End(path).count == count && End(path).taken == [] && Lined(End(path), if count == 0 then 0 else count - 1)
  {
    var r := Register(count, FRESH, []);
    path, events := [r], [];
    if count > 0 {
      assert Sampled(FRESH, count - 1).way == From(count - 1, count);
      path, events := Longer(path, events, Sample, r.(inbox := Sampled(FRESH, count - 1)));
    }
  }
}

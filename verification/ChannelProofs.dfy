/** What the subscriptions of a channel have seen, told from the events of a run alone. */
module ChannelProofs {
  import opened ChannelMachine

  function Sends(es: seq<Event>): nat
    decreases |es|
  {
    if es == [] then 0 else (if es[0] == Send then 1 else 0) + Sends(es[1..])
  }

  /** The events sent before subscription `id` is removed. */
  function SendsUntilRemoved(es: seq<Event>, id: nat): nat
    decreases |es|
  {
    if es == [] || es[0] == Remove(id) then 0
    else (if es[0] == Send then 1 else 0) + SendsUntilRemoved(es[1..], id)
  }

  predicate HasNoOn(es: seq<Event>) {
    forall i :: 0 <= i < |es| ==> !es[i].On?
  }

  // ---------------------------------------------------------------- runs in pieces

  lemma {:induction false} AfterConcat(c: Channel, a: seq<Event>, b: seq<Event>)
    requires Legal(c, a + b)
    ensures Legal(c, a) && Legal(After(c, a), b) && After(c, a + b) == After(After(c, a), b)
    decreases |a|
  {
    if a == [] {
      assert a + b == b;
    } else {
      assert (a + b)[0] == a[0] && (a + b)[1..] == a[1..] + b;
      AfterConcat(Step(c, a[0]), a[1..], b);
    }
  }

  /** A run up to an event, the event, and the rest. */
  lemma Cut(c: Channel, a: seq<Event>, e: Event, b: seq<Event>) returns (u: Channel)
    requires Legal(c, a + ([e] + b))
    ensures Legal(c, a) && u == After(c, a) && Enabled(u, e) && Legal(Step(u, e), b)
    ensures After(c, a + ([e] + b)) == After(Step(u, e), b)
  {
    AfterConcat(c, a, [e] + b);
    u := After(c, a);
    CutFirst(u, e, b);
  }

  lemma CutFirst(c: Channel, e: Event, b: seq<Event>)
    requires Legal(c, [e] + b)
    ensures Enabled(c, e) && Legal(Step(c, e), b) && After(c, [e] + b) == After(Step(c, e), b)
  {
    assert ([e] + b)[0] == e && ([e] + b)[1..] == b;
  }

  lemma {:induction false} SentIs(c: Channel, es: seq<Event>)
    requires Legal(c, es)
    ensures After(c, es).sent == c.sent + Sends(es) && After(c, es).kind == c.kind
    decreases |es|
  {
    if es != [] { SentIs(Step(c, es[0]), es[1..]); }
  }

  lemma {:induction false} NobodyYet(c: Channel, es: seq<Event>)
    requires Legal(c, es) && c.subs == [] && HasNoOn(es)
    ensures After(c, es).subs == []
    decreases |es|
  {
    if es != [] {
      assert !es[0].On?;
      assert forall i :: 0 <= i < |es[1..]| ==> es[1..][i] == es[i + 1];
      NobodyYet(Step(c, es[0]), es[1..]);
    }
  }

  // ---------------------------------------------------------------- one subscription through a run

  /** What an event can change about a subscription that exists. */
  lemma SubStep(c: Channel, e: Event, id: nat)
    requires Valid(c) && Enabled(c, e) && id < |c.subs|
    ensures id < |Step(c, e).subs|
    ensures var s, t := c.subs[id], Step(c, e).subs[id];
            && t.from == s.from && t.buffered == s.buffered && t.callback == s.callback
            && t.active == (s.active && e != Remove(id))
            && (s.active ==> Last(Step(c, e), t) == c.sent + if e == Send then 1 else 0)
            && (!s.active ==> t.until == s.until)
            && (!s.replay.Pending? || e != Microtask ==> t.replay == s.replay)
  {
    match e
    case Send => assert c.callbacks != [] ==> AfterSend(c).subs == Broadcast(c.subs, c.callbacks, c.sent);
    case On(callback) => assert Registered(c, callback).None? ==> AfterOn(c, callback).subs[id] == c.subs[id];
    case Remove(other) => assert other != id ==> AfterRemove(c, other).subs[id] == c.subs[id];
    case Microtask => assert c.microtasks == [0];
  }

  /** The subscription keeps its data, is active until it is removed, and hears every event until then. */
  lemma {:induction false} SubRun(c: Channel, es: seq<Event>, id: nat)
    requires Valid(c) && Legal(c, es) && id < |c.subs|
    ensures id < |After(c, es).subs|
    ensures var s, d := c.subs[id], After(c, es);
            var t := d.subs[id];
            && t.from == s.from && t.buffered == s.buffered
            && t.active == (s.active && Remove(id) !in es)
            && (s.active ==> Last(d, t) == c.sent + SendsUntilRemoved(es, id))
            && (!s.active ==> Last(d, t) == s.until)
            && (!s.replay.Pending? || Microtask !in es ==> t.replay == s.replay)
    decreases |es|
  {
    if es != [] {
      SubStep(c, es[0], id);
      StepKeeps(c, es[0]);
      SubRun(Step(c, es[0]), es[1..], id);
    }
  }

  // ---------------------------------------------------------------- registration

  predicate IsNew(c: Channel, callback: nat) {
    forall id :: 0 <= id < |c.subs| && c.subs[id].active ==> c.subs[id].callback != callback
  }

  /** A callback that no active subscription has gets a new one, with what was sent before it as far as it was kept. */
  lemma Registers(c: Channel, callback: nat)
    requires Valid(c) && IsNew(c, callback)
    ensures var d, id := Step(c, On(callback)), |c.subs|;
            && |d.subs| == id + 1 && d.subs[id].active && d.subs[id].from == c.sent && d.sent == c.sent
            && d.subs[id].buffered == (if id == 0 && c.kind != Plain then Recent(c.kind, c.sent) else [])
            && (d.subs[id].replay == if d.subs[id].buffered == [] then NoReplay else Pending)
  {
    assert Registered(c, callback).None?;
    OnKeeps(c, callback);
  }

  // ---------------------------------------------------------------- the replay

  /** What the microtask of a subscription does, by what was sent since its registration. */
  lemma MicrotaskOutcome(c: Channel)
    requires Valid(c) && Enabled(c, Microtask)
    ensures c.microtasks == [0] && 0 < |c.subs| && c.subs[0].replay.Pending?
    ensures var s, t := c.subs[0], Step(c, Microtask).subs[0];
            && t.replay == (if !s.active || (c.kind == Latest && c.sent > s.from) then Skipped else Made(c.sent))
            && t.log == (if !s.active || (c.kind == Latest && c.sent > s.from) then s.log else s.log + s.buffered)
  {
    assert LogValid(c, c.subs[0]);
  }

  /**
   * The first subscription of a channel on which something was sent before it. When its microtask runs, the replay is
   * skipped exactly if the subscription was removed before, or the channel keeps the latest value and something was
   * sent in between. Otherwise its log holds everything that was kept, in one piece, between what was sent before the
   * microtask and what was sent after it.
   */
  lemma ReplayOutcome(kind: Kind, a: seq<Event>, callback: nat, b: seq<Event>, d: seq<Event>)
    requires kind != Plain && HasNoOn(a) && Sends(a) > 0 && Microtask !in b
    requires Legal(Initial(kind), a + ([On(callback)] + (b + ([Microtask] + d))))
    ensures var c := After(Initial(kind), a + ([On(callback)] + (b + ([Microtask] + d))));
            && 0 < |c.subs|
            && (c.subs[0].replay == Skipped <==> Remove(0) in b || (kind == Latest && Sends(b) > 0))
            && c.subs[0].log == LogAround(kind, Sends(a), b, d)
  {
    InitialValid(kind);
    var c := Cut(Initial(kind), a, On(callback), b + ([Microtask] + d));
    RunKeeps(Initial(kind), a);
    SentIs(Initial(kind), a);
    NobodyYet(Initial(kind), a);
    var v := Step(c, On(callback));
    ReplayStarts(c, callback, v);
    FromPending(v, b, d);
  }

  /**
   * The log of a first subscription made after `from` events, whose microtask runs between `b` and `d`: what is sent
   * in `b`, everything that was kept, and what is sent in `d`; or without what was kept.
   */
  function LogAround(kind: Kind, from: nat, b: seq<Event>, d: seq<Event>): seq<nat> {
    var at := from + Sends(b);
    if Remove(0) in b then Range(from, from + SendsUntilRemoved(b, 0))
    else if kind == Latest && Sends(b) > 0 then Range(from, at + SendsUntilRemoved(d, 0))
    else Range(from, at) + Recent(kind, from) + Range(at, at + SendsUntilRemoved(d, 0))
  }

  lemma ReplayStarts(c: Channel, callback: nat, v: Channel)
    requires Valid(c) && c.subs == [] && v == Step(c, On(callback)) && c.kind != Plain && c.sent > 0
    ensures Valid(v) && |v.subs| == 1 && v.sent == c.sent && v.kind == c.kind
    ensures var s := v.subs[0];
            s.active && s.replay.Pending? && s.from == v.sent && s.buffered == Recent(v.kind, v.sent)
  {
    Registers(c, callback);
    StepKeeps(c, On(callback));
    assert Recent(c.kind, c.sent) != [];
  }

  lemma FromPending(c: Channel, b: seq<Event>, d: seq<Event>)
    requires Valid(c) && |c.subs| == 1 && c.subs[0].active && c.subs[0].replay.Pending? && c.subs[0].from == c.sent
    requires c.subs[0].buffered == Recent(c.kind, c.sent) && Microtask !in b
    requires Legal(c, b + ([Microtask] + d))
    ensures var t := After(c, b + ([Microtask] + d));
            && 0 < |t.subs|
            && (t.subs[0].replay == Skipped <==> Remove(0) in b || (c.kind == Latest && Sends(b) > 0))
            && t.subs[0].log == LogAround(c.kind, c.sent, b, d)
  {
    var u := Cut(c, b, Microtask, d);
    SubRun(c, b, 0);
    SentIs(c, b);
    RunKeeps(c, b);
    if Remove(0) !in b { UntilAll(b, 0); }
    FromMicrotask(u, c.sent, b, d);
  }

  lemma FromMicrotask(u: Channel, from: nat, b: seq<Event>, d: seq<Event>)
    requires Valid(u) && Enabled(u, Microtask) && 0 < |u.subs| && u.subs[0].from == from && u.sent == from + Sends(b)
    requires u.subs[0].buffered == Recent(u.kind, from) && u.subs[0].active == (Remove(0) !in b)
    requires Last(u, u.subs[0]) == from + SendsUntilRemoved(b, 0) && Legal(Step(u, Microtask), d)
    ensures var t := After(Step(u, Microtask), d);
            && 0 < |t.subs|
            && (t.subs[0].replay == Skipped <==> Remove(0) in b || (u.kind == Latest && Sends(b) > 0))
            && t.subs[0].log == LogAround(u.kind, from, b, d)
  {
    var v := Step(u, Microtask);
    MicrotaskLeaves(u, v);
    var s, end := FinalLog(v, d, 0);
    LogCases(u.kind, from, b, d, s, end);
  }

  lemma MicrotaskLeaves(u: Channel, v: Channel)
    requires Valid(u) && Enabled(u, Microtask) && v == Step(u, Microtask)
    ensures Valid(v) && 0 < |u.subs| && 0 < |v.subs| && v.sent == u.sent
    ensures var s, t := u.subs[0], v.subs[0];
            && t.from == s.from && t.buffered == s.buffered
            && t.active == s.active && (!t.active ==> t.until == s.until)
            && (t.replay == if !s.active || (u.kind == Latest && u.sent > s.from) then Skipped else Made(u.sent))
  {
    MicrotaskOutcome(u);
    SubStep(u, Microtask, 0);
    StepKeeps(u, Microtask);
  }

  lemma LogCases(kind: Kind, from: nat, b: seq<Event>, d: seq<Event>, s: Sub, end: nat)
    requires var gone, skip := Remove(0) in b, kind == Latest && Sends(b) > 0;
             && s.from == from && s.buffered == Recent(kind, from)
             && end == (if gone then from + SendsUntilRemoved(b, 0) else from + Sends(b) + SendsUntilRemoved(d, 0))
             && s.replay == if gone || skip then Skipped else Made(from + Sends(b))
    requires s.from <= end && (s.replay.Made? ==> s.from <= s.replay.at <= end)
    requires s.log == (if s.replay.Made? then Range(s.from, s.replay.at) + s.buffered + Range(s.replay.at, end)
                       else Range(s.from, end))
    ensures s.replay == Skipped <==> Remove(0) in b || (kind == Latest && Sends(b) > 0)
    ensures s.log == LogAround(kind, from, b, d)
  {
  }

  /** A subscription at the end of a run, and the log it has then. */
  lemma FinalLog(c: Channel, es: seq<Event>, id: nat) returns (s: Sub, end: nat)
    requires Valid(c) && Legal(c, es) && id < |c.subs| && !c.subs[id].replay.Pending?
    ensures id < |After(c, es).subs| && s == After(c, es).subs[id]
    ensures s.from == c.subs[id].from && s.buffered == c.subs[id].buffered && s.replay == c.subs[id].replay
    ensures end == if c.subs[id].active then c.sent + SendsUntilRemoved(es, id) else c.subs[id].until
    ensures s.from <= end && (s.replay.Made? ==> s.from <= s.replay.at <= end)
    ensures s.log == (if s.replay.Made? then Range(s.from, s.replay.at) + s.buffered + Range(s.replay.at, end)
                      else Range(s.from, end))
  {
    SubRun(c, es, id);
    RunKeeps(c, es);
    s := After(c, es).subs[id];
    end := Last(After(c, es), s);
    LogOf(After(c, es), s, id);
  }

  lemma LogOf(c: Channel, s: Sub, id: nat)
    requires Valid(c) && id < |c.subs| && s == c.subs[id]
    ensures LogValid(c, s)
  {
  }

  lemma {:induction false} UntilAll(es: seq<Event>, id: nat)
    requires Remove(id) !in es
    ensures SendsUntilRemoved(es, id) == Sends(es)
    decreases |es|
  {
    if es != [] { UntilAll(es[1..], id); }
  }

  // ---------------------------------------------------------------- every other subscription

  /** The state after a registration in the middle of a run, which gives the callback a new subscription. */
  lemma CutAtOn(kind: Kind, a: seq<Event>, callback: nat, b: seq<Event>, c: Channel) returns (v: Channel)
    requires Legal(Initial(kind), a) && c == After(Initial(kind), a)
    requires Legal(Initial(kind), a + ([On(callback)] + b)) && IsNew(c, callback)
    requires kind == Plain || Sends(a) == 0 || !HasNoOn(a)
    ensures Valid(v) && |c.subs| < |v.subs| && v.sent == Sends(a)
    ensures var s := v.subs[|c.subs|]; s.active && s.replay == NoReplay && s.from == v.sent
    ensures Legal(v, b) && After(Initial(kind), a + ([On(callback)] + b)) == After(v, b)
  {
    InitialValid(kind);
    SentIs(Initial(kind), a);
    if !HasNoOn(a) { SomebodyOnce(Initial(kind), a); }
    var u := Cut(Initial(kind), a, On(callback), b);
    RunKeeps(Initial(kind), a);
    v := Step(u, On(callback));
    LiveStarts(u, callback, v);
  }

  /** `n` events, one after the other. */
  ghost predicate Consecutive(xs: seq<nat>, from: nat, n: int) {
    |xs| == n && forall i :: 0 <= i < |xs| ==> xs[i] == from + i
  }

  /** A subscription with nothing to replay sees exactly the events sent from its registration to its removal. */
  lemma LiveOnly(kind: Kind, a: seq<Event>, callback: nat, b: seq<Event>, c: Channel)
    requires Legal(Initial(kind), a) && c == After(Initial(kind), a)
    requires Legal(Initial(kind), a + ([On(callback)] + b)) && IsNew(c, callback)
    requires kind == Plain || Sends(a) == 0 || !HasNoOn(a)
    ensures var t := After(Initial(kind), a + ([On(callback)] + b));
            |c.subs| < |t.subs| && Consecutive(t.subs[|c.subs|].log, Sends(a), SendsUntilRemoved(b, |c.subs|))
  {
    var v := CutAtOn(kind, a, callback, b, c);
    LogFrom(v, b, |c.subs|);
  }

  lemma LogFrom(c: Channel, es: seq<Event>, id: nat)
    requires Valid(c) && Legal(c, es) && id < |c.subs| && c.subs[id].active && c.subs[id].replay == NoReplay
    ensures id < |After(c, es).subs|
    ensures var s := c.subs[id];
            Consecutive(After(c, es).subs[id].log, s.from, c.sent + SendsUntilRemoved(es, id) - s.from)
  {
    var s, end := FinalLog(c, es, id);
    assert s.log == Range(s.from, c.sent + SendsUntilRemoved(es, id));
  }

  lemma LiveStarts(c: Channel, callback: nat, v: Channel)
    requires Valid(c) && IsNew(c, callback)
    requires v == Step(c, On(callback)) && (c.kind == Plain || c.sent == 0 || c.subs != [])
    ensures Valid(v) && |c.subs| < |v.subs| && v.sent == c.sent
    ensures var s := v.subs[|c.subs|]; s.active && s.replay == NoReplay && s.from == v.sent
  {
    Registers(c, callback);
    StepKeeps(c, On(callback));
    assert c.sent == 0 ==> Recent(c.kind, c.sent) == [];
  }

  lemma {:induction false} SomebodyOnce(c: Channel, es: seq<Event>)
    requires Valid(c) && Legal(c, es) && (!HasNoOn(es) || c.subs != [])
    ensures After(c, es).subs != []
    decreases |es|
  {
    if es != [] {
      StepKeeps(c, es[0]);
      if c.subs != [] {
        SubStep(c, es[0], 0);
      } else if es[0].On? {
        Registers(c, es[0].callback);
      } else {
        var i :| 0 <= i < |es| && es[i].On?;
        assert es[1..][i - 1].On?;
      }
      SomebodyOnce(Step(c, es[0]), es[1..]);
    }
  }

  /** What is kept for the first subscription: the last event, or the last 32. */
  lemma KeptEvents(sent: nat)
    ensures Recent(Latest, sent) == (if sent == 0 then [] else [sent - 1])
    ensures |Recent(Buffered, sent)| == (if sent < 32 then sent else 32)
    ensures forall i :: 0 <= i < |Recent(Buffered, sent)| ==>
              Recent(Buffered, sent)[i] == sent - |Recent(Buffered, sent)| + i
  {
  }
}

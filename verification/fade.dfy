/** Volume fades: `fade_volume`, `fade_some` and `fade_all` turn a start
    volume per speaker, an end volume, a duration and a number of ticks into
    a schedule of volume commands and sleeps, and then run it.

    Volumes are integer millionths and durations integer ten-thousandths of
    a second, so the client's `round(x, 6)` and `round(x, 4)` become a
    division rounded to the nearest integer. */
module Fade {
  import opened Base
  import opened Protocol
  import opened Framing
  import opened Correlation
  import opened Client
  import Resolver

  /** `a / b` rounded to the nearest integer, halves to the even one. */
  function RoundDiv(a: int, b: int): (q: int)
    requires b != 0
    ensures b > 0 ==> (2 * a - b <= 2 * q * b <= 2 * a + b)
    ensures b > 0 && (2 * a == (2 * q + 1) * b || 2 * a == (2 * q - 1) * b) ==> q % 2 == 0
    ensures b < 0 ==> q == RoundDiv(-a, -b)
    decreases if b < 0 then 1 else 0
  {
    if b < 0 then RoundDiv(-a, -b)
    else
      var f := a / b;
      var r := a % b;
      RoundCandidates(a, b);
      if 2 * r > b then f + 1
      else if 2 * r < b then f
      else if f % 2 == 0 then f
      else f + 1
  }

  /** The two candidates of a positive division, `a / b` and one more, as
      their doubled distance from the exact quotient. */
  lemma RoundCandidates(a: int, b: int)
    requires b > 0
    ensures 2 * a - 2 * (a / b) * b == 2 * (a % b)
    ensures 2 * (a / b + 1) * b == 2 * (a / b) * b + 2 * b
    ensures (2 * (a / b) + 1) * b == 2 * (a / b) * b + b && (2 * (a / b) - 1) * b == 2 * (a / b) * b - b
    ensures (2 * (a / b + 1) + 1) * b == 2 * (a / b) * b + 3 * b && (2 * (a / b + 1) - 1) * b == 2 * (a / b) * b + b
  {
  }

  /** One speaker being faded: its id, its volume before the fade and the
      increment each tick adds. */
  datatype Target = Target(id: string, start: int, increment: int)

  /** One step of a fade. */
  datatype Step = SetTo(speaker: string, volume: int) | Pause(units: int)

  /** The volume tick `i` (from 0) sends: the start plus `i + 1`
      increments, except that the last tick sends the end volume itself. */
  function VolumeAt(t: Target, i: int, ticks: int, end: int): int
  {
    if i == ticks - 1 then end else t.start + (i + 1) * t.increment
  }

  /** Tick `i`: a command for each target, in order, then the sleep. */
  function Tick(ts: seq<Target>, i: int, ticks: int, end: int, wait: int): (r: seq<Step>)
    ensures |r| == |ts| + 1 && r[|ts|] == Pause(wait)
    ensures forall j :: 0 <= j < |ts| ==> r[j] == SetTo(ts[j].id, VolumeAt(ts[j], i, ticks, end))
  {
    seq(|ts|, j requires 0 <= j < |ts| => SetTo(ts[j].id, VolumeAt(ts[j], i, ticks, end))) + [Pause(wait)]
  }

  /** The first `n` ticks of a fade. */
  function Plan(ts: seq<Target>, n: nat, ticks: int, end: int, wait: int): seq<Step>
  {
    if n == 0 then [] else Plan(ts, n - 1, ticks, end, wait) + Tick(ts, n - 1, ticks, end, wait)
  }

  /** The whole schedule: `range(0, ticks)` is empty for `ticks <= 0`. */
  function Schedule(ts: seq<Target>, ticks: int, end: int, wait: int): seq<Step>
  {
    if ticks <= 0 then [] else Plan(ts, ticks, ticks, end, wait)
  }

  lemma {:induction false} PlanLength(ts: seq<Target>, n: nat, ticks: int, end: int, wait: int)
    ensures |Plan(ts, n, ticks, end, wait)| == n * (|ts| + 1)
  {
    if n > 0 {
      PlanLength(ts, n - 1, ticks, end, wait);
      assert n * (|ts| + 1) == (n - 1) * (|ts| + 1) + (|ts| + 1);
    }
  }

  lemma {:induction false} PlanPrefix(ts: seq<Target>, m: nat, n: nat, ticks: int, end: int, wait: int)
    requires m <= n
    ensures Plan(ts, m, ticks, end, wait) <= Plan(ts, n, ticks, end, wait)
  {
    if m < n {
      PlanPrefix(ts, m, n - 1, ticks, end, wait);
    }
  }

  /** The schedule is tick after tick, each made of one command per target
      in list order followed by one sleep: step `j` of tick `i` sits at
      `i * (|ts| + 1) + j`. */
  lemma PlanAt(ts: seq<Target>, n: nat, ticks: int, end: int, wait: int, i: nat, j: nat)
    requires i < n && j <= |ts|
    ensures i * (|ts| + 1) + j < |Plan(ts, n, ticks, end, wait)|
    ensures Plan(ts, n, ticks, end, wait)[i * (|ts| + 1) + j] ==
      if j == |ts| then Pause(wait) else SetTo(ts[j].id, VolumeAt(ts[j], i, ticks, end))
  {
    PlanLength(ts, i, ticks, end, wait);
    PlanLength(ts, n, ticks, end, wait);
    PlanPrefix(ts, i + 1, n, ticks, end, wait);
    var p := Plan(ts, i + 1, ticks, end, wait);
    assert p == Plan(ts, i, ticks, end, wait) + Tick(ts, i, ticks, end, wait);
    assert i * (|ts| + 1) + j < (i + 1) * (|ts| + 1) <= n * (|ts| + 1) by {
      assert (i + 1) * (|ts| + 1) == i * (|ts| + 1) + |ts| + 1;
      assert i + 1 <= n;
      MulMonotone(i + 1, n, |ts| + 1);
    }
    assert p[i * (|ts| + 1) + j] == Tick(ts, i, ticks, end, wait)[j];
  }

  lemma MulMonotone(a: nat, b: nat, c: nat)
    requires a <= b
    ensures a * c <= b * c
  {
  }

  /** The schedule has `ticks` ticks of `|ts| + 1` steps each. */
  lemma ScheduleLength(ts: seq<Target>, ticks: int, end: int, wait: int)
    ensures |Schedule(ts, ticks, end, wait)| == if ticks <= 0 then 0 else ticks * (|ts| + 1)
  {
    if ticks > 0 {
      PlanLength(ts, ticks, ticks, end, wait);
    }
  }

  /** The last command for each target carries the end volume exactly, and
      every earlier one the start plus as many increments as ticks so far. */
  lemma ScheduleEndsAtEnd(ts: seq<Target>, ticks: int, end: int, wait: int, j: nat)
    requires ticks > 0 && j < |ts|
    ensures (ticks - 1) * (|ts| + 1) + j < |Schedule(ts, ticks, end, wait)|
    ensures Schedule(ts, ticks, end, wait)[(ticks - 1) * (|ts| + 1) + j] == SetTo(ts[j].id, end)
  {
    PlanAt(ts, ticks, ticks, end, wait, ticks - 1, j);
  }

  /** The world accepts the command of one step: it renders as ASCII, the
      greeting is accepted and a reply with the request's id and a success
      flag arrives. */
  predicate Clean(net: Net, k: nat, req: Request)
  {
    CreateCmd(net.render, req, net.draw(k)).Ok?
      && HandshakeAccepted(net.session(k).greeting) == Ok(true)
      && Scan(net.session(k).replies, AwaitSuccess(Decimal(net.draw(k)))).Ok?
  }

  /** The world accepts every command of a schedule, the `k`-th exchange
      being the first. */
  predicate CleanRun(net: Net, k: nat, plan: seq<Step>)
    decreases |plan|
  {
    plan == [] ||
    match plan[0]
    case Pause(_) => CleanRun(net, k, plan[1..])
    case SetTo(sp, v) => Clean(net, k, SetSpeakerVolume(sp, v)) && CleanRun(net, k + 1, plan[1..])
  }

  /** The events a schedule produces when the world accepts everything: each
      command with the request number its exchange draws, each sleep as is. */
  function Trace(net: Net, k: nat, plan: seq<Step>): seq<Event>
    decreases |plan|
  {
    if plan == [] then []
    else
      match plan[0]
      case Pause(u) => [Sleep(u)] + Trace(net, k, plan[1..])
      case SetTo(sp, v) => [Send(Command(SetSpeakerVolume(sp, v), Decimal(net.draw(k))))] + Trace(net, k + 1, plan[1..])
  }

  /** The number of commands in a schedule. */
  function Commands(plan: seq<Step>): nat
  {
    if plan == [] then 0 else (if plan[0].SetTo? then 1 else 0) + Commands(plan[1..])
  }

  /** Runs a schedule: each command is one `_get_result` exchange, whose
      result is ignored but whose exception ends the fade; each pause is a
      sleep. */
  function Execute(s: State, net: Net, k: nat, plan: seq<Step>): (o: Outcome<()>)
    ensures o.state == s
    ensures k <= o.next <= k + Commands(plan)
    ensures o.result.Ok? ==> o.next == k + Commands(plan)
    decreases |plan|
  {
    if plan == [] then Outcome(s, k, [], Ok(()))
    else
      match plan[0]
      case Pause(u) =>
        var rest := Execute(s, net, k, plan[1..]);
        Outcome(s, rest.next, [Sleep(u)] + rest.events, rest.result)
      case SetTo(sp, v) =>
        var run := Exchange(net, k, SetSpeakerVolume(sp, v), AwaitSuccess);
        if run.result.Err? then Outcome(s, run.next, run.events, Err(run.result.error))
        else
          var rest := Execute(s, net, run.next, plan[1..]);
          Outcome(s, rest.next, run.events + rest.events, rest.result)
  }

  /** When the world accepts every command, running a schedule writes its
      commands and sleeps in schedule order and succeeds. */
  lemma {:induction false} ExecuteFollowsPlan(s: State, net: Net, k: nat, plan: seq<Step>)
    requires CleanRun(net, k, plan)
    ensures Execute(s, net, k, plan) == Outcome(s, k + Commands(plan), Trace(net, k, plan), Ok(()))
    decreases |plan|
  {
    if plan != [] {
      match plan[0]
      case Pause(u) =>
        ExecuteFollowsPlan(s, net, k, plan[1..]);
      case SetTo(sp, v) =>
        ExecuteFollowsPlan(s, net, k + 1, plan[1..]);
        var run := Exchange(net, k, SetSpeakerVolume(sp, v), AwaitSuccess);
        assert run.events == [Send(Command(SetSpeakerVolume(sp, v), Decimal(net.draw(k))))];
        assert run.result.Ok?;
    }
  }

  /** The numeric checks shared by `fade_volume` and `fade_some`, in their
      order: volume type, seconds type, ticks type, volume range. */
  function FadeArgs(end: Quantity, seconds: Quantity, ticks: TickArg): (r: Result<()>)
    ensures r.Ok? <==> end.Amount? && seconds.Amount? && ticks.Ticks? && InRange(end.scaled)
    ensures end.NotANumber? ==> r == Err(NotNumber("volume"))
    ensures end.Amount? && seconds.NotANumber? ==> r == Err(NotNumber("seconds"))
    ensures end.Amount? && seconds.Amount? && ticks.NotInt? ==> r == Err(TicksNotInt)
  {
    if end.NotANumber? then Err(NotNumber("volume"))
    else if seconds.NotANumber? then Err(NotNumber("seconds"))
    else if ticks.NotInt? then Err(TicksNotInt)
    else if !InRange(end.scaled) then Err(VolumeOutOfRange)
    else Ok(())
  }

  /** The `ticks` argument: a Python `int`, or anything else. */
  datatype TickArg = Ticks(n: int) | NotInt

  /** The target of a speaker at the start of a fade. */
  function TargetOf(sp: Speaker, end: int, ticks: int): Target
    requires ticks != 0
  {
    Target(sp.id, sp.volume, RoundDiv(end - sp.volume, ticks))
  }

  /** `fade_volume`: the argument checks, then the speaker, then (with the
      division by `ticks`) the schedule for that one speaker, run. */
  function FadeVolume(s: State, net: Net, k: nat, end: Quantity, seconds: Quantity, ticks: TickArg,
                      id: string, name: string, keywords: Resolver.KeywordArg): (o: Outcome<()>)
    ensures FadeArgs(end, seconds, ticks).Err? ==> o == Outcome(s, k, [], Err(FadeArgs(end, seconds, ticks).error))
    ensures FadeArgs(end, seconds, ticks).Ok? && FindSpeaker(s, net, k, id, name, keywords).result.Err? ==>
      o == Abort(FindSpeaker(s, net, k, id, name, keywords))
    ensures (FadeArgs(end, seconds, ticks).Ok? && FindSpeaker(s, net, k, id, name, keywords).result.Ok?
      && ticks.n == 0) ==> o.result == Err(DivisionByZero) && o.events == FindSpeaker(s, net, k, id, name, keywords).events
    ensures (FadeArgs(end, seconds, ticks).Ok? && FindSpeaker(s, net, k, id, name, keywords).result.Ok?
      && ticks.n != 0) ==>
      (var f := FindSpeaker(s, net, k, id, name, keywords);
       var run := Execute(f.state, net, f.next,
         Schedule([TargetOf(f.result.value, end.scaled, ticks.n)], ticks.n, end.scaled, RoundDiv(seconds.scaled, ticks.n)));
       o == Outcome(run.state, run.next, f.events + run.events, run.result))
  {
    match FadeArgs(end, seconds, ticks)
    case Err(e) => Outcome(s, k, [], Err(e))
    case Ok(_) =>
      var f := FindSpeaker(s, net, k, id, name, keywords);
      if f.result.Err? then Abort(f)
      else if ticks.n == 0 then Outcome(f.state, f.next, f.events, Err(DivisionByZero))
      else
        var wait := RoundDiv(seconds.scaled, ticks.n);
        var t := TargetOf(f.result.value, end.scaled, ticks.n);
        var run := Execute(f.state, net, f.next, Schedule([t], ticks.n, end.scaled, wait));
        Outcome(run.state, run.next, f.events + run.events, run.result)
  }

  /** The target a picked speaker becomes. */
  function TargetWith(end: int, ticks: int): Speaker -> Target
    requires ticks != 0
  {
    (sp: Speaker) => TargetOf(sp, end, ticks)
  }

  /** The targets of `fade_some`: one per chosen speaker, in speaker-list
      order, a speaker listed twice giving two targets. */
  function Targets(ss: seq<Speaker>, ids: seq<string>, names: seq<string>, end: int, ticks: int): (ts: seq<Target>)
    requires ticks != 0
    ensures |ts| <= |ss|
    ensures ts == Map(Filter(ss, ChosenBy(ids, names)), TargetWith(end, ticks))
    ensures forall t :: t in ts ==> exists i :: 0 <= i < |ss| && Chosen(ss[i], ids, names) && t == TargetOf(ss[i], end, ticks)
    ensures forall i :: 0 <= i < |ss| && Chosen(ss[i], ids, names) ==> TargetOf(ss[i], end, ticks) in ts
  {
    if ss == [] then []
    else
      var rest := Targets(ss[1..], ids, names, end, ticks);
      assert forall i :: 0 < i < |ss| ==> ss[i] == ss[1..][i - 1];
      MapFilterCons(ss, ChosenBy(ids, names), TargetWith(end, ticks));
      (if Chosen(ss[0], ids, names) then [TargetOf(ss[0], end, ticks)] else []) + rest
  }

  /** The first requested id no target carries, when the numbers differ. */
  function Unknown(ids: seq<string>, ts: seq<Target>): (r: Option<string>)
    ensures r.Some? ==> r.value in ids && forall t :: t in ts ==> t.id != r.value
    ensures r.None? ==> forall x :: x in ids ==> exists t :: t in ts && t.id == x
  {
    if ids == [] then None
    else if forall t :: t in ts ==> t.id != ids[0] then Some(ids[0])
    else
      assert forall x :: x in ids ==> x == ids[0] || x in ids[1..];
      Unknown(ids[1..], ts)
  }

  /** `fade_some`: the argument checks; a fetch of the speakers; the
      division by `ticks`; the targets, chosen from the cached speakers by id
      or by name; an id no target carries is an error before any command;
      then the schedule, with one command per target per tick. */
  function FadeSome(s: State, net: Net, k: nat, end: Quantity, seconds: Quantity, ticks: TickArg,
                    ids: ListArg, names: ListArg): (o: Outcome<()>)
    ensures FadeArgs(end, seconds, ticks).Err? ==> o == Outcome(s, k, [], Err(FadeArgs(end, seconds, ticks).error))
    ensures FadeArgs(end, seconds, ticks).Ok? && ListArgs(ids, names).Err? ==>
      o == Outcome(s, k, [], Err(ListArgs(ids, names).error))
    ensures o.result.Ok? ==> FadeArgs(end, seconds, ticks).Ok? && ListArgs(ids, names).Ok? && ticks.n != 0
    ensures (o.result.Ok? || |o.events| > |GetSpeakers(s, net, k).events|) ==>
      (ticks.n != 0 && ids.Listed? && names.Listed?
       && (var ts := Targets(GetSpeakers(s, net, k).state.speakers, ids.items, names.items, end.scaled, ticks.n);
           |ids.items| == |ts| || forall x :: x in ids.items ==> exists t :: t in ts && t.id == x))
    ensures (FadeArgs(end, seconds, ticks).Ok? && ListArgs(ids, names).Ok? && GetSpeakers(s, net, k).result.Ok?
      && ticks.n != 0) ==>
      (var g := GetSpeakers(s, net, k);
       var ts := Targets(g.state.speakers, ids.items, names.items, end.scaled, ticks.n);
       if |ids.items| != |ts| && Unknown(ids.items, ts).Some? then
         o == Outcome(g.state, g.next, g.events, Err(UnknownSpeakerId(Unknown(ids.items, ts).value)))
       else
         var run := Execute(g.state, net, g.next, Schedule(ts, ticks.n, end.scaled, RoundDiv(seconds.scaled, ticks.n)));
         o == Outcome(run.state, run.next, g.events + run.events, run.result))
  {
    match FadeArgs(end, seconds, ticks)
    case Err(e) => Outcome(s, k, [], Err(e))
    case Ok(_) =>
      match ListArgs(ids, names)
      case Err(e) => Outcome(s, k, [], Err(e))
      case Ok(_) =>
        var g := GetSpeakers(s, net, k);
        if g.result.Err? then Abort(g)
        else if ticks.n == 0 then Outcome(g.state, g.next, g.events, Err(DivisionByZero))
        else
          var wait := RoundDiv(seconds.scaled, ticks.n);
          var ts := Targets(g.state.speakers, ids.items, names.items, end.scaled, ticks.n);
          var missing := if |ids.items| != |ts| then Unknown(ids.items, ts) else None;
          if missing.Some? then Outcome(g.state, g.next, g.events, Err(UnknownSpeakerId(missing.value)))
          else
            var run := Execute(g.state, net, g.next, Schedule(ts, ticks.n, end.scaled, wait));
            Outcome(run.state, run.next, g.events + run.events, run.result)
  }

  /** The check for unknown ids runs only when the counts differ: two
      speakers sharing an id make up for an id that matches nobody, and the
      fade goes ahead without it. */
  lemma UnknownIdMissedWhenCountsAgree()
    ensures (var ss := [Speaker("A", "airplay", "x", 0, true, false, ["a"]), Speaker("B", "airplay", "x", 0, true, false, ["b"])];
      var ts := Targets(ss, ["x", "y"], [], 500000, 2);
      |ts| == 2 && forall t :: t in ts ==> t.id != "y")
  {
    var ss := [Speaker("A", "airplay", "x", 0, true, false, ["a"]), Speaker("B", "airplay", "x", 0, true, false, ["b"])];
    assert Targets(ss[1..], ["x", "y"], [], 500000, 2) == [TargetOf(ss[1], 500000, 2)];
  }

  /** `fade_all`: fetch the speakers and fade every cached speaker that is
      connected, by id. */
  function FadeAll(s: State, net: Net, k: nat, end: Quantity, seconds: Quantity, ticks: TickArg): (o: Outcome<()>)
    ensures GetSpeakers(s, net, k).result.Err? ==> o == Abort(GetSpeakers(s, net, k))
    ensures GetSpeakers(s, net, k).result.Ok? ==>
      (var g := GetSpeakers(s, net, k);
       var f := FadeSome(g.state, net, g.next, end, seconds, ticks,
         Listed(IdsWhere(g.state.speakers, IsConnected)), Listed([]));
       o == Outcome(f.state, f.next, g.events + f.events, f.result))
  {
    var g := GetSpeakers(s, net, k);
    if g.result.Err? then Abort(g)
    else
      var f := FadeSome(g.state, net, g.next, end, seconds, ticks,
        Listed(IdsWhere(g.state.speakers, IsConnected)), Listed([]));
      Outcome(f.state, f.next, g.events + f.events, f.result)
  }

  /** With no connected speaker, `fade_all` asks `fade_some` for nobody,
      which it rejects. */
  lemma FadeAllNobodyConnected(s: State, net: Net, k: nat, end: Quantity, seconds: Quantity, ticks: TickArg)
    requires FadeArgs(end, seconds, ticks).Ok? && GetSpeakers(s, net, k).result.Ok?
    requires forall i :: 0 <= i < |GetSpeakers(s, net, k).state.speakers| ==> !GetSpeakers(s, net, k).state.speakers[i].connected
    ensures FadeAll(s, net, k, end, seconds, ticks).result == Err(NeedIdsOrNames)
  {
    var g := GetSpeakers(s, net, k);
    var ids := IdsWhere(g.state.speakers, IsConnected);
    assert ids == [];
    assert ListArgs(Listed(ids), Listed([])) == Err(NeedIdsOrNames);
    assert FadeSome(g.state, net, g.next, end, seconds, ticks, Listed(ids), Listed([])).result == Err(NeedIdsOrNames);
  }

  /** A fade from 0.2 to 0.8 over 4 seconds in 4 ticks: 0.35, 0.5, 0.65 and
      0.8, each followed by a sleep of one second. */
  lemma FadeExample()
    ensures Schedule([TargetOf(Speaker("Den", "airplay", "den-1", 200000, true, false, ["den"]), 800000, 4)],
      4, 800000, RoundDiv(40000, 4))
      == [SetTo("den-1", 350000), Pause(10000), SetTo("den-1", 500000), Pause(10000),
          SetTo("den-1", 650000), Pause(10000), SetTo("den-1", 800000), Pause(10000)]
  {
    assert RoundDiv(600000, 4) == 150000 && RoundDiv(40000, 4) == 10000;
    var t := Target("den-1", 200000, 150000);
    assert Plan([t], 1, 4, 800000, 10000) == [SetTo("den-1", 350000), Pause(10000)];
    assert Plan([t], 2, 4, 800000, 10000) == [SetTo("den-1", 350000), Pause(10000), SetTo("den-1", 500000), Pause(10000)];
    assert Tick([t], 2, 4, 800000, 10000) == [SetTo("den-1", 650000), Pause(10000)];
    assert Tick([t], 3, 4, 800000, 10000) == [SetTo("den-1", 800000), Pause(10000)];
  }

  /** Rounding the increment can carry an intermediate command past the end
      volume, even past 1.0: from 0.999995 to 1.0 in 8 ticks the increment
      rounds to 0.000001 and the seventh command asks for 1.000002. */
  lemma FadeOvershoots()
    ensures RoundDiv(1000000 - 999995, 8) == 1
    ensures VolumeAt(Target("den-1", 999995, 1), 6, 8, 1000000) == 1000002
    ensures !InRange(VolumeAt(Target("den-1", 999995, 1), 6, 8, 1000000))
  {
  }
}

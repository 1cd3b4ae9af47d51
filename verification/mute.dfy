/** Mute memory: `mute` remembers a speaker before silencing it, `unmute`
    restores the remembered volume and forgets it; `mute_some` and
    `unmute_some` do the same for many speakers at once (the latter without
    forgetting anything), and `mute_all` and `unmute_all` apply them to every
    speaker that is audible or silent. Volumes are integer millionths; a
    speaker is muted when its volume is 0. */
module Mute {
  import opened Base
  import opened Protocol
  import opened Framing
  import opened Correlation
  import opened Client
  import Resolver

  /** What muting one speaker does: the new memory, the volume to send, if
      any, and what `mute` returns. */
  datatype Decision = Decision(muted: map<string, Speaker>, send: Option<int>, value: int)

  /** `mute` once the speaker is known: an audible speaker is remembered and
      silenced and its volume returned; a silent one is left alone and 0 is
      returned. */
  function MuteStep(muted: map<string, Speaker>, sp: Speaker): (d: Decision)
    ensures sp.volume != 0 ==> d.muted == muted[sp.id := sp] && d.send == Some(0) && d.value == sp.volume
    ensures sp.volume == 0 ==> d.muted == muted && d.send.None? && d.value == 0
  {
    if sp.volume != 0 then Decision(muted[sp.id := sp], Some(0), sp.volume)
    else Decision(muted, None, 0)
  }

  /** `unmute` once the speaker is known: a silent speaker gets its
      remembered volume back, and is forgotten, or gets the default; an
      audible one is left alone and its volume returned. */
  function UnmuteStep(muted: map<string, Speaker>, sp: Speaker, default: int): (d: Decision)
    ensures sp.volume == 0 && sp.id in muted ==>
      d.muted == muted - {sp.id} && d.send == Some(muted[sp.id].volume) && d.value == muted[sp.id].volume
    ensures sp.volume == 0 && sp.id !in muted ==> d.muted == muted && d.send == Some(default) && d.value == default
    ensures sp.volume != 0 ==> d.muted == muted && d.send.None? && d.value == sp.volume
  {
    if sp.volume != 0 then Decision(muted, None, sp.volume)
    else if sp.id in muted then Decision(muted - {sp.id}, Some(muted[sp.id].volume), muted[sp.id].volume)
    else Decision(muted, Some(default), default)
  }

  /** Muting and then unmuting a speaker (which the server now reports at
      volume 0) sends its old volume back and leaves the memory as it was,
      less that speaker. */
  lemma MuteThenUnmute(muted: map<string, Speaker>, sp: Speaker, default: int)
    requires sp.volume != 0
    ensures UnmuteStep(MuteStep(muted, sp).muted, sp.(volume := 0), default)
      == Decision(muted - {sp.id}, Some(sp.volume), sp.volume)
  {
    assert muted[sp.id := sp] - {sp.id} == muted - {sp.id};
  }

  /** Unmuting a speaker that nobody muted falls back to the default
      volume; unmuting twice uses it the second time. */
  lemma UnmuteTwice(muted: map<string, Speaker>, sp: Speaker, default: int)
    requires sp.volume == 0
    ensures UnmuteStep(UnmuteStep(muted, sp, default).muted, sp, default).send == Some(default)
  {
  }

  /** Carries out a decision for a found speaker: the memory is updated
      first, then the volume (if any) is sent. */
  function Apply(f: Outcome<Speaker>, net: Net, d: Decision): (o: Outcome<int>)
    requires f.result.Ok?
    ensures o.state == f.state.(muted := d.muted)
    ensures d.send.None? ==> o.events == f.events && o.result == Ok(d.value) && o.next == f.next
    ensures d.send.Some? ==> (o.next == f.next + 1
      && (o.events == f.events || o.events == f.events + [Send(Command(SetSpeakerVolume(f.result.value.id, d.send.value), Decimal(net.draw(f.next))))]))
    ensures o.result.Ok? ==> o.result == Ok(d.value)
  {
    var s := f.state.(muted := d.muted);
    if d.send.None? then Outcome(s, f.next, f.events, Ok(d.value))
    else
      var run := Exchange(net, f.next, SetSpeakerVolume(f.result.value.id, d.send.value), AwaitSuccess);
      Outcome(s, run.next, f.events + run.events, if run.result.Err? then Err(run.result.error) else Ok(d.value))
  }

  /** `mute`. */
  function Mute(s: State, net: Net, k: nat, id: string, name: string, keywords: Resolver.KeywordArg): (o: Outcome<int>)
    ensures FindSpeaker(s, net, k, id, name, keywords).result.Err? ==> o == Abort(FindSpeaker(s, net, k, id, name, keywords))
    ensures FindSpeaker(s, net, k, id, name, keywords).result.Ok? ==>
      (var f := FindSpeaker(s, net, k, id, name, keywords);
       o == Apply(f, net, MuteStep(f.state.muted, f.result.value)))
  {
    var f := FindSpeaker(s, net, k, id, name, keywords);
    if f.result.Err? then Abort(f)
    else Apply(f, net, MuteStep(f.state.muted, f.result.value))
  }

  /** `unmute`. */
  function Unmute(s: State, net: Net, k: nat, default: int, id: string, name: string, keywords: Resolver.KeywordArg): (o: Outcome<int>)
    ensures FindSpeaker(s, net, k, id, name, keywords).result.Err? ==> o == Abort(FindSpeaker(s, net, k, id, name, keywords))
    ensures FindSpeaker(s, net, k, id, name, keywords).result.Ok? ==>
      (var f := FindSpeaker(s, net, k, id, name, keywords);
       o == Apply(f, net, UnmuteStep(f.state.muted, f.result.value, default)))
  {
    var f := FindSpeaker(s, net, k, id, name, keywords);
    if f.result.Err? then Abort(f)
    else Apply(f, net, UnmuteStep(f.state.muted, f.result.value, default))
  }

  /** `mute` on a silent speaker writes nothing after the fetch, keeps the
      memory and reports 0; on an audible one it remembers the speaker
      before anything is sent and reports the old volume. */
  lemma MuteBehaviour(s: State, net: Net, k: nat, id: string, name: string, keywords: Resolver.KeywordArg)
    requires FindSpeaker(s, net, k, id, name, keywords).result.Ok?
    ensures var f := FindSpeaker(s, net, k, id, name, keywords);
      var o := Mute(s, net, k, id, name, keywords);
      var sp := f.result.value;
      (sp.volume == 0 ==> o == Outcome(f.state, f.next, f.events, Ok(0)))
      && (sp.volume != 0 ==> (o.state.muted == f.state.muted[sp.id := sp]
          && (o.result.Ok? ==> o.result.value == sp.volume)
          && Sent(o.events) <= Sent(f.events) + [SetSpeakerVolume(sp.id, 0)]))
  {
    var f := FindSpeaker(s, net, k, id, name, keywords);
    var o := Mute(s, net, k, id, name, keywords);
    var sp := f.result.value;
    if sp.volume != 0 {
      ApplySent(f, net, MuteStep(f.state.muted, sp));
    }
  }

  /** Carrying out a decision that sends a volume writes at most that one
      request after the fetch. */
  lemma ApplySent(f: Outcome<Speaker>, net: Net, d: Decision)
    requires f.result.Ok? && d.send.Some?
    ensures Sent(Apply(f, net, d).events) <= Sent(f.events) + [SetSpeakerVolume(f.result.value.id, d.send.value)]
  {
    var c := Send(Command(SetSpeakerVolume(f.result.value.id, d.send.value), Decimal(net.draw(f.next))));
    SentAppend(f.events, [c]);
    assert Sent([c]) == [SetSpeakerVolume(f.result.value.id, d.send.value)];
  }

  /** What `f` gives for the speakers of `ss` that `p` picks. */
  function Picked<T>(ss: seq<Speaker>, p: Speaker -> bool, f: Speaker -> T): set<T> {
    set i | 0 <= i < |ss| && p(ss[i]) :: f(ss[i])
  }

  /** Picking from a list is picking from its head and then its tail. */
  lemma PickedCons<T>(ss: seq<Speaker>, p: Speaker -> bool, f: Speaker -> T)
    requires ss != []
    ensures Picked(ss, p, f) == (if p(ss[0]) then {f(ss[0])} else {}) + Picked(ss[1..], p, f)
  {
    forall x | x in Picked(ss, p, f) ensures x in (if p(ss[0]) then {f(ss[0])} else {}) + Picked(ss[1..], p, f) {
      var i :| 0 <= i < |ss| && p(ss[i]) && f(ss[i]) == x;
      if i > 0 { assert ss[1..][i - 1] == ss[i]; }
    }
    forall x | x in Picked(ss[1..], p, f) ensures x in Picked(ss, p, f) {
      var i :| 0 <= i < |ss[1..]| && p(ss[1..][i]) && f(ss[1..][i]) == x;
      assert ss[i + 1] == ss[1..][i];
    }
  }

  /** The ids `mute_some` may silence: chosen speakers that are audible. */
  function Silenced(ss: seq<Speaker>, ids: seq<string>, names: seq<string>): set<string> {
    Picked(ss, (sp: Speaker) => Chosen(sp, ids, names) && sp.volume != 0, IdOf)
  }

  lemma SilencedCons(ss: seq<Speaker>, ids: seq<string>, names: seq<string>)
    requires ss != []
    ensures Silenced(ss, ids, names) ==
      (if Chosen(ss[0], ids, names) && ss[0].volume != 0 then {ss[0].id} else {}) + Silenced(ss[1..], ids, names)
  {
    PickedCons(ss, (sp: Speaker) => Chosen(sp, ids, names) && sp.volume != 0, IdOf);
  }

  /** The ids of the speakers of `ss` the lists choose. */
  function ChosenIds(ss: seq<Speaker>, ids: seq<string>, names: seq<string>): set<string> {
    Picked(ss, ChosenBy(ids, names), IdOf)
  }

  lemma ChosenIdsCons(ss: seq<Speaker>, ids: seq<string>, names: seq<string>)
    requires ss != []
    ensures ChosenIds(ss, ids, names) ==
      (if Chosen(ss[0], ids, names) then {ss[0].id} else {}) + ChosenIds(ss[1..], ids, names)
  {
    PickedCons(ss, ChosenBy(ids, names), IdOf);
  }

  /** Only chosen speakers are silenced. */
  lemma SilencedChosen(ss: seq<Speaker>, ids: seq<string>, names: seq<string>)
    ensures Silenced(ss, ids, names) <= ChosenIds(ss, ids, names)
  {
    forall x | x in Silenced(ss, ids, names) ensures x in ChosenIds(ss, ids, names) {
      var i :| 0 <= i < |ss| && Chosen(ss[i], ids, names) && ss[i].volume != 0 && ss[i].id == x;
      assert ChosenBy(ids, names)(ss[i]);
    }
  }

  /** Speaker `i` is the last one of `ss` the lists choose with its id: a
      report ends up holding what the loop recorded for it. */
  predicate LastChosen(ss: seq<Speaker>, ids: seq<string>, names: seq<string>, i: int) {
    0 <= i < |ss| && Chosen(ss[i], ids, names)
      && forall j :: i < j < |ss| && Chosen(ss[j], ids, names) ==> ss[j].id != ss[i].id
  }

  /** The head is the last chosen with its id when no chosen speaker of the
      tail shares it; the others are last in the list when they are last in
      the tail. */
  lemma LastChosenCons(ss: seq<Speaker>, ids: seq<string>, names: seq<string>)
    requires ss != []
    ensures LastChosen(ss, ids, names, 0) <==> Chosen(ss[0], ids, names) && ss[0].id !in ChosenIds(ss[1..], ids, names)
    ensures forall i :: 0 < i < |ss| ==> (LastChosen(ss, ids, names, i) <==> LastChosen(ss[1..], ids, names, i - 1))
  {
    var t := ss[1..];
    if ss[0].id in ChosenIds(t, ids, names) {
      var j :| 0 <= j < |t| && ChosenBy(ids, names)(t[j]) && t[j].id == ss[0].id;
      assert ss[j + 1] == t[j];
    } else if Chosen(ss[0], ids, names) {
      forall j | 0 < j < |ss| && Chosen(ss[j], ids, names) ensures ss[j].id != ss[0].id {
        assert t[j - 1] == ss[j] && ChosenBy(ids, names)(t[j - 1]);
      }
    }
    forall i | 0 < i < |ss| ensures LastChosen(ss, ids, names, i) <==> LastChosen(t, ids, names, i - 1) {
      assert forall j :: i - 1 < j < |t| ==> t[j] == ss[j + 1];
      if LastChosen(t, ids, names, i - 1) {
        forall j | i < j < |ss| && Chosen(ss[j], ids, names) ensures ss[j].id != ss[i].id {
          assert t[j - 1] == ss[j];
        }
      }
    }
  }

  /** What `mute_some` reports for a chosen speaker, given the memory: an
      audible speaker itself, a silent one as remembered, or itself. */
  function MuteShown(muted: map<string, Speaker>, sp: Speaker): Speaker {
    if sp.volume == 0 && sp.id in muted then muted[sp.id] else sp
  }

  /** The loop of `mute_some` over the cached speakers, from speaker `i`:
      each chosen audible speaker is remembered, reported and silenced; each
      chosen silent one is reported as remembered, or as itself. Only
      chosen audible speakers are remembered or silenced, and a loop that
      completes has remembered all of them. */
  function MuteLoop(s: State, net: Net, k: nat, ss: seq<Speaker>, ids: seq<string>, names: seq<string>,
                    report: map<string, Speaker>): (o: Outcome<map<string, Speaker>>)
    ensures o.state.speakers == s.speakers && o.state.sources == s.sources && o.state.current == s.current
    ensures s.muted.Keys <= o.state.muted.Keys <= s.muted.Keys + Silenced(ss, ids, names)
    ensures o.result.Ok? ==> report.Keys <= o.result.value.Keys && Silenced(ss, ids, names) <= o.state.muted.Keys
    ensures forall x :: x in s.muted && x !in Silenced(ss, ids, names) ==> o.state.muted[x] == s.muted[x]
    ensures forall r :: r in Sent(o.events) ==> r.SetSpeakerVolume? && r.volume == 0 && r.speaker in Silenced(ss, ids, names)
    ensures k <= o.next
    decreases |ss|
  {
    if ss == [] then Outcome(s, k, [], Ok(report))
    else
      var sp := ss[0];
      SilencedCons(ss, ids, names);
      if !Chosen(sp, ids, names) then MuteLoop(s, net, k, ss[1..], ids, names, report)
      else if sp.volume == 0 then
        MuteLoop(s, net, k, ss[1..], ids, names, report[sp.id := MuteShown(s.muted, sp)])
      else
        var s1 := s.(muted := s.muted[sp.id := sp]);
        var run := Exchange(net, k, SetSpeakerVolume(sp.id, 0), AwaitSuccess);
        if run.result.Err? then Outcome(s1, run.next, run.events, Err(run.result.error))
        else
          var rest := MuteLoop(s1, net, run.next, ss[1..], ids, names, report[sp.id := sp]);
          SentAppend(run.events, rest.events);
          Outcome(rest.state, rest.next, run.events + rest.events, rest.result)
  }

  /** What a completed loop of `mute_some` over `ss` reports, started from
      `report` and leaving the memory `muted`: every chosen id on top of
      `report`, which it otherwise keeps. Each id shows what the last
      chosen speaker with it shows: an audible speaker itself, which is
      now also remembered, and a silent one as remembered, or itself. */
  predicate MuteReports(ss: seq<Speaker>, ids: seq<string>, names: seq<string>, report: map<string, Speaker>,
                        r: map<string, Speaker>, muted: map<string, Speaker>) {
    r.Keys == report.Keys + ChosenIds(ss, ids, names)
    && (forall x :: x in report && x !in ChosenIds(ss, ids, names) ==> r[x] == report[x])
    && (forall i :: 0 <= i < |ss| && LastChosen(ss, ids, names, i) ==> ss[i].id in r && r[ss[i].id] == MuteShown(muted, ss[i]))
    && (forall i :: 0 <= i < |ss| && LastChosen(ss, ids, names, i) && ss[i].volume != 0 ==>
          ss[i].id in muted && muted[ss[i].id] == ss[i])
  }

  /** A loop of `mute_some` that completes reports as `MuteReports` says. */
  lemma {:induction false} MuteReport(s: State, net: Net, k: nat, ss: seq<Speaker>, ids: seq<string>, names: seq<string>,
                                      report: map<string, Speaker>)
    ensures var o := MuteLoop(s, net, k, ss, ids, names, report);
      o.result.Ok? ==> MuteReports(ss, ids, names, report, o.result.value, o.state.muted)
    decreases |ss|
  {
    var o := MuteLoop(s, net, k, ss, ids, names, report);
    if ss != [] && o.result.Ok? {
      var s1, k1, report1 := MuteLoopStep(s, net, k, ss, ids, names, report);
      var rest := MuteLoop(s1, net, k1, ss[1..], ids, names, report1);
      MuteReport(s1, net, k1, ss[1..], ids, names, report1);
      MuteReportsCons(ss, ids, names, report, report1, s.muted, s1.muted, rest.result.value, rest.state.muted);
    }
  }

  /** The report of the whole loop from the report of its tail. */
  lemma MuteReportsCons(ss: seq<Speaker>, ids: seq<string>, names: seq<string>, report: map<string, Speaker>,
                        report1: map<string, Speaker>, m0: map<string, Speaker>, m1: map<string, Speaker>,
                        r: map<string, Speaker>, muted: map<string, Speaker>)
    requires ss != []
    requires m1 == if Chosen(ss[0], ids, names) && ss[0].volume != 0 then m0[ss[0].id := ss[0]] else m0
    requires report1 == if Chosen(ss[0], ids, names) then report[ss[0].id := MuteShown(m1, ss[0])] else report
    requires m1.Keys <= muted.Keys <= m1.Keys + Silenced(ss[1..], ids, names)
    requires forall x :: x in m1 && x !in Silenced(ss[1..], ids, names) ==> muted[x] == m1[x]
    requires MuteReports(ss[1..], ids, names, report1, r, muted)
    ensures MuteReports(ss, ids, names, report, r, muted)
  {
    var sp := ss[0];
    ChosenIdsCons(ss, ids, names);
    LastChosenCons(ss, ids, names);
    SilencedChosen(ss[1..], ids, names);
    forall i | LastChosen(ss, ids, names, i)
      ensures ss[i].id in r && r[ss[i].id] == MuteShown(muted, ss[i])
      ensures ss[i].volume != 0 ==> ss[i].id in muted && muted[ss[i].id] == ss[i]
    {
      if i > 0 {
        assert LastChosen(ss[1..], ids, names, i - 1) && ss[1..][i - 1] == ss[i];
      } else {
        assert sp.id !in ChosenIds(ss[1..], ids, names) && sp.id in report1;
        assert r[sp.id] == MuteShown(m1, sp);
        assert sp.id !in Silenced(ss[1..], ids, names);
      }
    }
  }

  /** One turn of `mute_some`'s loop: what the rest of the loop starts
      from. A chosen speaker is recorded as shown, an audible one being
      remembered first. */
  lemma MuteLoopStep(s: State, net: Net, k: nat, ss: seq<Speaker>, ids: seq<string>, names: seq<string>,
                     report: map<string, Speaker>) returns (s1: State, k1: nat, report1: map<string, Speaker>)
    requires ss != [] && MuteLoop(s, net, k, ss, ids, names, report).result.Ok?
    ensures var o := MuteLoop(s, net, k, ss, ids, names, report);
      var rest := MuteLoop(s1, net, k1, ss[1..], ids, names, report1);
      o.result == rest.result && o.state == rest.state
    ensures s1.muted == if Chosen(ss[0], ids, names) && ss[0].volume != 0 then s.muted[ss[0].id := ss[0]] else s.muted
    ensures report1 == if Chosen(ss[0], ids, names) then report[ss[0].id := MuteShown(s1.muted, ss[0])] else report
  {
    var sp := ss[0];
    s1, k1, report1 := s, k, report;
    if Chosen(sp, ids, names) && sp.volume == 0 {
      report1 := report[sp.id := MuteShown(s.muted, sp)];
    } else if Chosen(sp, ids, names) {
      s1 := s.(muted := s.muted[sp.id := sp]);
      k1 := Exchange(net, k, SetSpeakerVolume(sp.id, 0), AwaitSuccess).next;
      report1 := report[sp.id := sp];
    }
  }

  /** An exchange that did not fail, with a server that accepts the
      greeting, wrote its request. */
  lemma ExchangeWrites<T>(net: Net, k: nat, req: Request, look: string -> Reply -> Verdict<T>)
    requires Exchange(net, k, req, look).result.Ok? && Greets(net, k)
    ensures Sent(Exchange(net, k, req, look).events) == [req]
  {
  }

  /** When every connection accepts the greeting, a loop of `mute_some`
      that completes has sent a zero volume for every chosen audible
      speaker. */
  lemma {:induction false} MuteSendsAll(s: State, net: Net, k: nat, ss: seq<Speaker>, ids: seq<string>, names: seq<string>,
                                        report: map<string, Speaker>)
    ensures var o := MuteLoop(s, net, k, ss, ids, names, report);
      o.result.Ok? && GreetsFrom(net, k, o.next) ==>
        forall x :: x in Silenced(ss, ids, names) ==> SetSpeakerVolume(x, 0) in Sent(o.events)
    decreases |ss|
  {
    var o := MuteLoop(s, net, k, ss, ids, names, report);
    if ss != [] && o.result.Ok? && GreetsFrom(net, k, o.next) {
      var sp := ss[0];
      SilencedCons(ss, ids, names);
      if !Chosen(sp, ids, names) {
        MuteSendsAll(s, net, k, ss[1..], ids, names, report);
      } else if sp.volume == 0 {
        MuteSendsAll(s, net, k, ss[1..], ids, names, report[sp.id := MuteShown(s.muted, sp)]);
      } else {
        var s1 := s.(muted := s.muted[sp.id := sp]);
        var run := Exchange(net, k, SetSpeakerVolume(sp.id, 0), AwaitSuccess);
        var rest := MuteLoop(s1, net, run.next, ss[1..], ids, names, report[sp.id := sp]);
        assert Greets(net, k);
        ExchangeWrites(net, k, SetSpeakerVolume(sp.id, 0), AwaitSuccess);
        MuteSendsAll(s1, net, run.next, ss[1..], ids, names, report[sp.id := sp]);
        SentAppend(run.events, rest.events);
      }
    }
  }

  /** `mute_some`: the list checks, a fetch, then the loop over the cached
      speakers. */
  function MuteSome(s: State, net: Net, k: nat, ids: ListArg, names: ListArg): (o: Outcome<map<string, Speaker>>)
    ensures ListArgs(ids, names).Err? ==> o == Outcome(s, k, [], Err(ListArgs(ids, names).error))
    ensures ListArgs(ids, names).Ok? && GetSpeakers(s, net, k).result.Err? ==> o == Abort(GetSpeakers(s, net, k))
    ensures ListArgs(ids, names).Ok? && GetSpeakers(s, net, k).result.Ok? ==>
      (var g := GetSpeakers(s, net, k);
       var l := MuteLoop(g.state, net, g.next, g.state.speakers, ids.items, names.items, map[]);
       o == Outcome(l.state, l.next, g.events + l.events, l.result))
    ensures o.result.Ok? ==> (ListArgs(ids, names).Ok? && GetSpeakers(s, net, k).result.Ok?
      && MuteReports(GetSpeakers(s, net, k).state.speakers, ids.items, names.items, map[], o.result.value, o.state.muted))
    ensures o.result.Ok? && GreetsFrom(net, k + 1, o.next) ==>
      forall x :: x in Silenced(GetSpeakers(s, net, k).state.speakers, ids.items, names.items) ==> SetSpeakerVolume(x, 0) in Sent(o.events)
  {
    match ListArgs(ids, names)
    case Err(e) => Outcome(s, k, [], Err(e))
    case Ok(_) =>
      var g := GetSpeakers(s, net, k);
      if g.result.Err? then Abort(g)
      else
        var l := MuteLoop(g.state, net, g.next, g.state.speakers, ids.items, names.items, map[]);
        MuteReport(g.state, net, g.next, g.state.speakers, ids.items, names.items, map[]);
        MuteSendsAll(g.state, net, g.next, g.state.speakers, ids.items, names.items, map[]);
        SentAppend(g.events, l.events);
        Outcome(l.state, l.next, g.events + l.events, l.result)
  }

  /** The volume `unmute_some` gives a silent speaker: the remembered one,
      or the default. */
  function Restore(muted: map<string, Speaker>, id: string, default: int): int {
    if id in muted then muted[id].volume else default
  }

  /** The requests `unmute_some` may send: one per chosen silent speaker,
      with the volume it restores. */
  function Restored(ss: seq<Speaker>, ids: seq<string>, names: seq<string>, muted: map<string, Speaker>, default: int): set<Request> {
    Picked(ss, (sp: Speaker) => Chosen(sp, ids, names) && sp.volume == 0, (sp: Speaker) => SetSpeakerVolume(sp.id, Restore(muted, sp.id, default)))
  }

  lemma RestoredCons(ss: seq<Speaker>, ids: seq<string>, names: seq<string>, muted: map<string, Speaker>, default: int)
    requires ss != []
    ensures Restored(ss, ids, names, muted, default) ==
      (if Chosen(ss[0], ids, names) && ss[0].volume == 0 then {SetSpeakerVolume(ss[0].id, Restore(muted, ss[0].id, default))} else {})
      + Restored(ss[1..], ids, names, muted, default)
  {
    PickedCons(ss, (sp: Speaker) => Chosen(sp, ids, names) && sp.volume == 0, (sp: Speaker) => SetSpeakerVolume(sp.id, Restore(muted, sp.id, default)));
  }

  /** The loop of `unmute_some`: each chosen silent speaker gets its
      remembered volume, or the default, and is reported with it; each
      chosen audible one is reported with its volume. Nothing is forgotten,
      and nothing but those volumes is sent. */
  function UnmuteLoop(s: State, net: Net, k: nat, ss: seq<Speaker>, ids: seq<string>, names: seq<string>,
                      default: int, report: map<string, int>): (o: Outcome<map<string, int>>)
    ensures o.state == s
    ensures o.result.Ok? ==> report.Keys <= o.result.value.Keys
    ensures forall r :: r in Sent(o.events) ==> r in Restored(ss, ids, names, s.muted, default)
    ensures k <= o.next
    decreases |ss|
  {
    if ss == [] then Outcome(s, k, [], Ok(report))
    else
      var sp := ss[0];
      RestoredCons(ss, ids, names, s.muted, default);
      if !Chosen(sp, ids, names) then UnmuteLoop(s, net, k, ss[1..], ids, names, default, report)
      else if sp.volume != 0 then UnmuteLoop(s, net, k, ss[1..], ids, names, default, report[sp.id := sp.volume])
      else
        var v := Restore(s.muted, sp.id, default);
        var run := Exchange(net, k, SetSpeakerVolume(sp.id, v), AwaitSuccess);
        if run.result.Err? then Outcome(s, run.next, run.events, Err(run.result.error))
        else
          var rest := UnmuteLoop(s, net, run.next, ss[1..], ids, names, default, report[sp.id := v]);
          SentAppend(run.events, rest.events);
          Outcome(rest.state, rest.next, run.events + rest.events, rest.result)
  }

  /** What `unmute_some` reports for a chosen speaker: a silent one the
      volume it restores, an audible one its volume. */
  function UnmuteShown(muted: map<string, Speaker>, sp: Speaker, default: int): int {
    if sp.volume == 0 then Restore(muted, sp.id, default) else sp.volume
  }

  /** What a completed loop of `unmute_some` over `ss` reports, started
      from `report` with the memory `muted`: every chosen id on top of
      `report`, which it otherwise keeps, each with what the last chosen
      speaker with it shows. */
  predicate UnmuteReports(ss: seq<Speaker>, ids: seq<string>, names: seq<string>, muted: map<string, Speaker>,
                          default: int, report: map<string, int>, r: map<string, int>) {
    r.Keys == report.Keys + ChosenIds(ss, ids, names)
    && (forall x :: x in report && x !in ChosenIds(ss, ids, names) ==> r[x] == report[x])
    && (forall i :: 0 <= i < |ss| && LastChosen(ss, ids, names, i) ==>
          ss[i].id in r && r[ss[i].id] == UnmuteShown(muted, ss[i], default))
  }

  /** A loop of `unmute_some` that completes reports as `UnmuteReports`
      says. */
  lemma {:induction false} UnmuteReport(s: State, net: Net, k: nat, ss: seq<Speaker>, ids: seq<string>, names: seq<string>,
                                        default: int, report: map<string, int>)
    ensures var o := UnmuteLoop(s, net, k, ss, ids, names, default, report);
      o.result.Ok? ==> UnmuteReports(ss, ids, names, s.muted, default, report, o.result.value)
    decreases |ss|
  {
    var o := UnmuteLoop(s, net, k, ss, ids, names, default, report);
    if ss != [] && o.result.Ok? {
      var k1, report1 := UnmuteLoopStep(s, net, k, ss, ids, names, default, report);
      UnmuteReport(s, net, k1, ss[1..], ids, names, default, report1);
      UnmuteReportsCons(ss, ids, names, s.muted, default, report, report1, o.result.value);
    }
  }

  /** One turn of `unmute_some`'s loop: what the rest of the loop starts
      from. */
  lemma UnmuteLoopStep(s: State, net: Net, k: nat, ss: seq<Speaker>, ids: seq<string>, names: seq<string>,
                       default: int, report: map<string, int>) returns (k1: nat, report1: map<string, int>)
    requires ss != [] && UnmuteLoop(s, net, k, ss, ids, names, default, report).result.Ok?
    ensures UnmuteLoop(s, net, k, ss, ids, names, default, report).result
      == UnmuteLoop(s, net, k1, ss[1..], ids, names, default, report1).result
    ensures report1 == if Chosen(ss[0], ids, names) then report[ss[0].id := UnmuteShown(s.muted, ss[0], default)] else report
  {
    var sp := ss[0];
    k1, report1 := k, report;
    if Chosen(sp, ids, names) {
      report1 := report[sp.id := UnmuteShown(s.muted, sp, default)];
      if sp.volume == 0 {
        k1 := Exchange(net, k, SetSpeakerVolume(sp.id, Restore(s.muted, sp.id, default)), AwaitSuccess).next;
      }
    }
  }

  /** The report of the whole loop from the report of its tail. */
  lemma UnmuteReportsCons(ss: seq<Speaker>, ids: seq<string>, names: seq<string>, muted: map<string, Speaker>,
                          default: int, report: map<string, int>, report1: map<string, int>, r: map<string, int>)
    requires ss != []
    requires report1 == if Chosen(ss[0], ids, names) then report[ss[0].id := UnmuteShown(muted, ss[0], default)] else report
    requires UnmuteReports(ss[1..], ids, names, muted, default, report1, r)
    ensures UnmuteReports(ss, ids, names, muted, default, report, r)
  {
    var sp := ss[0];
    ChosenIdsCons(ss, ids, names);
    LastChosenCons(ss, ids, names);
    forall i | 0 <= i < |ss| && LastChosen(ss, ids, names, i)
      ensures ss[i].id in r && r[ss[i].id] == UnmuteShown(muted, ss[i], default)
    {
      if i > 0 {
        assert LastChosen(ss[1..], ids, names, i - 1) && ss[1..][i - 1] == ss[i];
      } else {
        assert sp.id !in ChosenIds(ss[1..], ids, names) && sp.id in report1;
      }
    }
  }

  /** When every connection accepts the greeting, a loop of
      `unmute_some` that completes has sent every restoring volume: one
      for each chosen silent speaker. */
  lemma {:induction false} UnmuteSendsAll(s: State, net: Net, k: nat, ss: seq<Speaker>, ids: seq<string>, names: seq<string>,
                                          default: int, report: map<string, int>)
    ensures var o := UnmuteLoop(s, net, k, ss, ids, names, default, report);
      o.result.Ok? && GreetsFrom(net, k, o.next) ==>
        forall r :: r in Restored(ss, ids, names, s.muted, default) ==> r in Sent(o.events)
    decreases |ss|
  {
    var o := UnmuteLoop(s, net, k, ss, ids, names, default, report);
    if ss != [] && o.result.Ok? && GreetsFrom(net, k, o.next) {
      var sp := ss[0];
      RestoredCons(ss, ids, names, s.muted, default);
      if !Chosen(sp, ids, names) {
        UnmuteSendsAll(s, net, k, ss[1..], ids, names, default, report);
      } else if sp.volume != 0 {
        UnmuteSendsAll(s, net, k, ss[1..], ids, names, default, report[sp.id := sp.volume]);
      } else {
        var v := Restore(s.muted, sp.id, default);
        var run := Exchange(net, k, SetSpeakerVolume(sp.id, v), AwaitSuccess);
        var rest := UnmuteLoop(s, net, run.next, ss[1..], ids, names, default, report[sp.id := v]);
        assert Greets(net, k);
        ExchangeWrites(net, k, SetSpeakerVolume(sp.id, v), AwaitSuccess);
        UnmuteSendsAll(s, net, run.next, ss[1..], ids, names, default, report[sp.id := v]);
        SentAppend(run.events, rest.events);
      }
    }
  }

  /** `unmute_some`: the list checks, a fetch, then the loop. */
  function UnmuteSome(s: State, net: Net, k: nat, ids: ListArg, names: ListArg, default: int): (o: Outcome<map<string, int>>)
    ensures ListArgs(ids, names).Err? ==> o == Outcome(s, k, [], Err(ListArgs(ids, names).error))
    ensures o.state.muted == s.muted
    ensures ListArgs(ids, names).Ok? && GetSpeakers(s, net, k).result.Err? ==> o == Abort(GetSpeakers(s, net, k))
    ensures ListArgs(ids, names).Ok? && GetSpeakers(s, net, k).result.Ok? ==>
      (var g := GetSpeakers(s, net, k);
       var l := UnmuteLoop(g.state, net, g.next, g.state.speakers, ids.items, names.items, default, map[]);
       o == Outcome(l.state, l.next, g.events + l.events, l.result))
    ensures o.result.Ok? ==> (ListArgs(ids, names).Ok? && GetSpeakers(s, net, k).result.Ok?
      && UnmuteReports(GetSpeakers(s, net, k).state.speakers, ids.items, names.items, s.muted, default, map[], o.result.value))
    ensures o.result.Ok? && GreetsFrom(net, k + 1, o.next) ==>
      forall r :: r in Restored(GetSpeakers(s, net, k).state.speakers, ids.items, names.items, s.muted, default) ==> r in Sent(o.events)
  {
    match ListArgs(ids, names)
    case Err(e) => Outcome(s, k, [], Err(e))
    case Ok(_) =>
      var g := GetSpeakers(s, net, k);
      if g.result.Err? then Abort(g)
      else
        var l := UnmuteLoop(g.state, net, g.next, g.state.speakers, ids.items, names.items, default, map[]);
        UnmuteReport(g.state, net, g.next, g.state.speakers, ids.items, names.items, default, map[]);
        UnmuteSendsAll(g.state, net, g.next, g.state.speakers, ids.items, names.items, default, map[]);
        SentAppend(g.events, l.events);
        Outcome(l.state, l.next, g.events + l.events, l.result)
  }

  /** Once `mute_some` completes, `unmute_some` gives each speaker it
      silenced, now reported at volume 0, the volume it had: the one
      `mute_some` reported for it. */
  lemma MuteSomeThenUnmute(s: State, net: Net, k: nat, ids: ListArg, names: ListArg, default: int, i: int)
    requires MuteSome(s, net, k, ids, names).result.Ok?
    requires LastChosen(GetSpeakers(s, net, k).state.speakers, ids.items, names.items, i)
    requires GetSpeakers(s, net, k).state.speakers[i].volume != 0
    ensures var sp := GetSpeakers(s, net, k).state.speakers[i];
      var m := MuteSome(s, net, k, ids, names);
      UnmuteShown(m.state.muted, sp.(volume := 0), default) == sp.volume == m.result.value[sp.id].volume
  {
  }

  function IsAudible(sp: Speaker): bool { sp.volume != 0 }

  function IsSilent(sp: Speaker): bool { sp.volume == 0 }

  /** `mute_all`: fetch, then `mute_some` for the ids of the cached audible
      speakers (which fetches again), and report `True`. */
  function MuteAll(s: State, net: Net, k: nat): (o: Outcome<bool>)
    ensures o.result.Ok? ==> o.result.value
    ensures GetSpeakers(s, net, k).result.Err? ==> o == Abort(GetSpeakers(s, net, k))
    ensures GetSpeakers(s, net, k).result.Ok? ==>
      (var g := GetSpeakers(s, net, k);
       var m := MuteSome(g.state, net, g.next, Listed(IdsWhere(g.state.speakers, IsAudible)), Listed([]));
       o.state == m.state && o.events == g.events + m.events && (o.result.Ok? <==> m.result.Ok?))
  {
    var g := GetSpeakers(s, net, k);
    if g.result.Err? then Abort(g)
    else
      var m := MuteSome(g.state, net, g.next, Listed(IdsWhere(g.state.speakers, IsAudible)), Listed([]));
      Outcome(m.state, m.next, g.events + m.events, if m.result.Err? then Err(m.result.error) else Ok(true))
  }

  /** `unmute_all`: fetch, then `unmute_some` for the ids of the cached
      silent speakers, and report `True`. */
  function UnmuteAll(s: State, net: Net, k: nat, default: int): (o: Outcome<bool>)
    ensures o.result.Ok? ==> o.result.value
    ensures o.state.muted == s.muted
    ensures GetSpeakers(s, net, k).result.Err? ==> o == Abort(GetSpeakers(s, net, k))
    ensures GetSpeakers(s, net, k).result.Ok? ==>
      (var g := GetSpeakers(s, net, k);
       var m := UnmuteSome(g.state, net, g.next, Listed(IdsWhere(g.state.speakers, IsSilent)), Listed([]), default);
       o.state == m.state && o.events == g.events + m.events && (o.result.Ok? <==> m.result.Ok?))
  {
    var g := GetSpeakers(s, net, k);
    if g.result.Err? then Abort(g)
    else
      var m := UnmuteSome(g.state, net, g.next, Listed(IdsWhere(g.state.speakers, IsSilent)), Listed([]), default);
      Outcome(m.state, m.next, g.events + m.events, if m.result.Err? then Err(m.result.error) else Ok(true))
  }

  /** `mute_all` chooses exactly the speakers the first fetch reports
      audible, and `unmute_all` exactly the silent ones. */
  lemma AllChoosesByVolume(ss: seq<Speaker>, x: string)
    ensures x in IdsWhere(ss, IsAudible) <==> exists i :: 0 <= i < |ss| && ss[i].volume != 0 && ss[i].id == x
    ensures x in IdsWhere(ss, IsSilent) <==> exists i :: 0 <= i < |ss| && ss[i].volume == 0 && ss[i].id == x
  {
  }

  /** When every cached speaker is already silent, `mute_all` hands
      `mute_some` no ids, which it rejects. */
  lemma MuteAllWhenAllSilent(s: State, net: Net, k: nat)
    requires GetSpeakers(s, net, k).result.Ok?
    requires forall i :: 0 <= i < |GetSpeakers(s, net, k).state.speakers| ==> GetSpeakers(s, net, k).state.speakers[i].volume == 0
    ensures MuteAll(s, net, k).result == Err(NeedIdsOrNames)
  {
    var g := GetSpeakers(s, net, k);
    assert IdsWhere(g.state.speakers, IsAudible) == [];
  }
}

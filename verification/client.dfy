/** The asynchronous client (`AirfoilAsync`): its cached state and the
    operations on speakers and sources, each a function of the state, the
    world it talks to and the index of its first exchange. Every operation
    reports the state it leaves, the index of the next exchange, the
    commands it wrote and its outcome. An exception of the Python client is
    an `Err` outcome that still carries what happened before it was raised. */
module Client {
  import opened Base
  import opened Protocol
  import opened Framing
  import opened Correlation
  import opened Catalog
  import Resolver
  import Text

  /** The attributes of an `AirfoilAsync` that outlive a call. */
  datatype State = State(
    speakers: seq<Speaker>,             // `self.speakers`, the last fetched list
    sources: seq<Source>,               // `self.sources`
    muted: map<string, Speaker>,        // `self.muted_speakers`, by speaker id
    current: Option<CurrentSource>)     // `self.current_source`

  const Fresh: State := State([], [], map[], None)

  /** What an operation did. */
  datatype Outcome<T> = Outcome(state: State, next: nat, events: seq<Event>, result: Result<T>)

  /** The outcome of an operation that failed where `o` failed. */
  function Abort<T, U>(o: Outcome<U>): (r: Outcome<T>)
    requires o.result.Err?
    ensures r.state == o.state && r.next == o.next && r.events == o.events
    ensures r.result == Err(o.result.error)
  {
    Outcome(o.state, o.next, o.events, Err(o.result.error))
  }

  /** A numeric argument: a Python `int` or `float`, scaled to the unit the
      operation counts in, or a value of another type. */
  datatype Quantity = Amount(scaled: int) | NotANumber

  /** Volumes are millionths: 1.0 is this many. */
  const Full: int := 1000000

  predicate InRange(v: int) { 0 <= v <= Full }

  /** An argument that must be a Python list of strings. */
  datatype ListArg = Listed(items: seq<string>) | Unlisted

  /** The commands a run wrote, in order. */
  function Sent(events: seq<Event>): (r: seq<Request>)
    ensures |r| <= |events|
  {
    if events == [] then []
    else (if events[0].Send? then [events[0].command.request] else []) + Sent(events[1..])
  }

  lemma {:induction false} SentAppend(a: seq<Event>, b: seq<Event>)
    ensures Sent(a + b) == Sent(a) + Sent(b)
  {
    if a == [] {
      assert a + b == b;
    } else {
      assert (a + b)[0] == a[0];
      assert (a + b)[1..] == a[1..] + b;
      SentAppend(a[1..], b);
      Assoc(if a[0].Send? then [a[0].command.request] else [], Sent(a[1..]), Sent(b));
    }
  }

  /** Whether a reply carries a speaker list. */
  predicate HasSpeakers(r: Reply) {
    r.data.Some? && r.data.value.speakers.Some?
  }

  /** `get_speakers`: one `subscribe` exchange; the first reply carrying a
      speaker list gives the speakers, which are also cached. */
  function GetSpeakers(s: State, net: Net, k: nat): (o: Outcome<Option<seq<Speaker>>>)
    ensures o.next == k + 1
    ensures o.events == [] || o.events == [Send(Command(Subscribe, Decimal(net.draw(k))))]
    ensures o.state.sources == s.sources && o.state.muted == s.muted && o.state.current == s.current
    ensures o.result.Ok? && o.result.value.Some? ==> o.state.speakers == o.result.value.value
    ensures !(o.result.Ok? && o.result.value.Some?) ==> o.state.speakers == s.speakers
    ensures o.result.Ok? && o.result.value.Some? ==> (exists i :: (0 <= i < |net.session(k).replies|
      && HasSpeakers(net.session(k).replies[i])
      && o.result.value.value == SpeakersOf(net.session(k).replies[i].data.value.speakers.value)
      && forall j :: 0 <= j < i ==> !HasSpeakers(net.session(k).replies[j])))
  {
    var look := (id: string) => SpeakerList;
    var run := Exchange(net, k, Subscribe, look);
    if run.result.Ok? && run.result.value.Some? then
      Outcome(s.(speakers := run.result.value.value), run.next, run.events, run.result)
    else Outcome(s, run.next, run.events, run.result)
  }

  /** `find_speaker`: fetch the speakers, then resolve the selector against
      what was fetched. A failed fetch fails the call before the selector is
      looked at. */
  function FindSpeaker(s: State, net: Net, k: nat, id: string, name: string, keywords: Resolver.KeywordArg): (o: Outcome<Speaker>)
    ensures o.state == GetSpeakers(s, net, k).state && o.next == k + 1
    ensures o.events == GetSpeakers(s, net, k).events
    ensures GetSpeakers(s, net, k).result.Err? ==> o.result == Err(GetSpeakers(s, net, k).result.error)
    ensures GetSpeakers(s, net, k).result.Ok? ==>
      o.result == Resolver.FindSpeaker(GetSpeakers(s, net, k).result.value, id, name, keywords)
    ensures o.result.Ok? ==> o.result.value in o.state.speakers
  {
    var f := GetSpeakers(s, net, k);
    if f.result.Err? then Abort(f)
    else Outcome(f.state, f.next, f.events, Resolver.FindSpeaker(f.result.value, id, name, keywords))
  }

  /** The request that moves a speaker into the wanted connection state. */
  function Change(connect: bool, speaker: string): Request
  {
    if connect then ConnectToSpeaker(speaker) else DisconnectSpeaker(speaker)
  }

  /** `connect_speaker` (`connect`) and `disconnect_speaker` (`!connect`):
      find the speaker; when it is already in the wanted state, report
      success without writing anything more; otherwise send the request and
      report what the correlator finds. */
  function SetConnected(s: State, net: Net, k: nat, id: string, name: string, keywords: Resolver.KeywordArg, connect: bool): (o: Outcome<Option<bool>>)
    ensures o.state == FindSpeaker(s, net, k, id, name, keywords).state
    ensures FindSpeaker(s, net, k, id, name, keywords).result.Err? ==>
      o.result == Err(FindSpeaker(s, net, k, id, name, keywords).result.error)
        && o.events == FindSpeaker(s, net, k, id, name, keywords).events
    ensures (FindSpeaker(s, net, k, id, name, keywords).result.Ok? &&
      FindSpeaker(s, net, k, id, name, keywords).result.value.connected == connect) ==>
      o.result == Ok(Some(true)) && o.events == FindSpeaker(s, net, k, id, name, keywords).events
        && o.next == k + 1
    ensures (FindSpeaker(s, net, k, id, name, keywords).result.Ok? &&
      FindSpeaker(s, net, k, id, name, keywords).result.value.connected != connect) ==>
      o.next == k + 2
        && o.result == Exchange(net, k + 1, Change(connect, FindSpeaker(s, net, k, id, name, keywords).result.value.id),
          AwaitSuccess).result
        && Sent(o.events) <= Sent(FindSpeaker(s, net, k, id, name, keywords).events)
          + [Change(connect, FindSpeaker(s, net, k, id, name, keywords).result.value.id)]
    ensures ChangesOnly(Sent(o.events), connect)
  {
    var f := FindSpeaker(s, net, k, id, name, keywords);
    FetchSendsSubscribe(f.events, net.draw(k));
    if f.result.Err? then Abort(f)
    else if f.result.value.connected == connect then Outcome(f.state, f.next, f.events, Ok(Some(true)))
    else
      var run := Exchange(net, f.next, Change(connect, f.result.value.id), AwaitSuccess);
      FetchThenChange(f.events, run.events, connect, f.result.value.id, net.draw(k), net.draw(f.next));
      Outcome(f.state, run.next, f.events + run.events, run.result)
  }

  /** A fetch followed by a change exchange writes at most the
      `subscribe` and the change. */
  lemma FetchThenChange(fetch: seq<Event>, change: seq<Event>, connect: bool, id: string, n: RequestNo, m: RequestNo)
    requires fetch == [] || fetch == [Send(Command(Subscribe, Decimal(n)))]
    requires change == [] || change == [Send(Command(Change(connect, id), Decimal(m)))]
    ensures ChangesOnly(Sent(fetch + change), connect)
    ensures Sent(fetch + change) <= Sent(fetch) + [Change(connect, id)]
  {
    FetchSendsSubscribe(fetch, n);
    if change != [] {
      assert change[1..] == [];
    }
    SentAppend(fetch, change);
  }

  /** Every command of `rs` fetches the speakers or changes a connection
      in the direction `connect`. */
  predicate ChangesOnly(rs: seq<Request>, connect: bool) {
    forall i :: 0 <= i < |rs| ==>
      rs[i] == Subscribe || (if connect then rs[i].ConnectToSpeaker? else rs[i].DisconnectSpeaker?)
  }

  /** No disconnect is written after a connect. */
  predicate DisconnectsFirst(rs: seq<Request>) {
    forall i, j :: 0 <= i < j < |rs| && rs[i].ConnectToSpeaker? ==> !rs[j].DisconnectSpeaker?
  }

  /** A speaker fetch writes at most its `subscribe`. */
  lemma FetchSendsSubscribe(events: seq<Event>, n: RequestNo)
    requires events == [] || events == [Send(Command(Subscribe, Decimal(n)))]
    ensures forall c :: ChangesOnly(Sent(events), c)
  {
    if events != [] {
      assert events[1..] == [];
    }
  }

  /** Disconnects, then connects: the order `toggle_speakers` writes in. */
  lemma DisconnectsThenConnects(a: seq<Request>, b: seq<Request>, c: seq<Request>)
    requires ChangesOnly(a, false) && ChangesOnly(b, false) && ChangesOnly(c, true)
    ensures DisconnectsFirst(a + b + c)
  {
  }

  /** Python truthiness of what `connect_speaker` and friends return. */
  predicate Truthy(r: Option<bool>) { r == Some(true) }

  /** Every command of `rs` fetches the speakers or changes the
      connection of the speaker whose id is `id`, up to case. */
  predicate ChangesFor(rs: seq<Request>, id: string) {
    forall i :: 0 <= i < |rs| ==>
      (rs[i] == Subscribe
       || ((rs[i].ConnectToSpeaker? || rs[i].DisconnectSpeaker?) && Text.Lower(rs[i].speaker) == Text.Lower(id)))
  }

  /** `connect_speaker(id=...)` / `disconnect_speaker(id=...)`: the lookup
      by id matches ids up to case, so whatever is changed is the speaker
      with that id, up to case. */
  lemma SetConnectedFor(s: State, net: Net, k: nat, id: string, connect: bool)
    ensures ChangesFor(Sent(SetConnected(s, net, k, id, "", Resolver.Words([]), connect).events), id)
  {
    var f := FindSpeaker(s, net, k, id, "", Resolver.Words([]));
    var rs := Sent(SetConnected(s, net, k, id, "", Resolver.Words([]), connect).events);
    FetchChangesFor(f.events, net.draw(k), id);
    if f.result.Ok? && f.result.value.connected != connect {
      FoundById(s, net, k, id);
      ChangeAfterFetch(rs, Sent(f.events), Change(connect, f.result.value.id), id);
    } else {
      assert rs == Sent(f.events);
    }
  }

  /** A speaker fetch writes nothing but its `subscribe`. */
  lemma FetchChangesFor(events: seq<Event>, n: RequestNo, id: string)
    requires events == [] || events == [Send(Command(Subscribe, Decimal(n)))]
    ensures forall i :: 0 <= i < |Sent(events)| ==> Sent(events)[i] == Subscribe
    ensures ChangesFor(Sent(events), id)
  {
    if events != [] {
      assert events[1..] == [];
    }
  }

  /** A speaker found by id carries that id, up to case. */
  lemma FoundById(s: State, net: Net, k: nat, id: string)
    ensures FindSpeaker(s, net, k, id, "", Resolver.Words([])).result.Ok? ==>
      Text.Lower(FindSpeaker(s, net, k, id, "", Resolver.Words([])).result.value.id) == Text.Lower(id)
  {
    if FindSpeaker(s, net, k, id, "", Resolver.Words([])).result.Ok? {
      assert Resolver.SelectorOf(id, "", Resolver.Words([])) == Ok(ById(id));
    }
  }

  /** What a fetch and then at most one change for `id` write. */
  lemma ChangeAfterFetch(rs: seq<Request>, fetch: seq<Request>, req: Request, id: string)
    requires forall i :: 0 <= i < |fetch| ==> fetch[i] == Subscribe
    requires (req.ConnectToSpeaker? || req.DisconnectSpeaker?) && Text.Lower(req.speaker) == Text.Lower(id)
    requires rs <= fetch + [req]
    ensures ChangesFor(rs, id)
  {
    forall i | 0 <= i < |rs| ensures rs[i] == Subscribe || rs[i] == req {
      assert rs[i] == (fetch + [req])[i];
    }
  }

  /** The trace of `toggle_speaker`: the fetch, a disconnect step and a
      connect step, each for the found id. */
  lemma ToggleOneSent(fetch: seq<Event>, off: seq<Event>, on: seq<Event>, id: string, n: RequestNo)
    requires fetch == [] || fetch == [Send(Command(Subscribe, Decimal(n)))]
    requires ChangesOnly(Sent(off), false) && ChangesFor(Sent(off), id)
    requires ChangesOnly(Sent(on), true) && ChangesFor(Sent(on), id)
    ensures ChangesFor(Sent(fetch + off), id) && ChangesFor(Sent(fetch + off + on), id)
    ensures DisconnectsFirst(Sent(fetch + off)) && DisconnectsFirst(Sent(fetch + off + on))
    ensures ChangesOnly(Sent(fetch + off), false)
    ensures off == [] ==> ChangesOnly(Sent(fetch + off + on), true)
  {
    var a, b, c := Sent(fetch), Sent(off), Sent(on);
    FetchChangesFor(fetch, n, id);
    FetchSendsSubscribe(fetch, n);
    SentAppend(fetch, off);
    SentAppend(fetch + off, on);
    ChangesForAppend(a, b, id);
    ChangesForAppend(a + b, c, id);
    ChangesOnlyAppend(a, b, false);
    DisconnectsThenConnects(a, b, c);
    DisconnectsThenConnects(a, b, []);
    assert a + b + [] == a + b;
    if off == [] {
      assert a + b == a;
      ChangesOnlyAppend(a, c, true);
    }
  }

  lemma ChangesForAppend(a: seq<Request>, b: seq<Request>, id: string)
    requires ChangesFor(a, id) && ChangesFor(b, id)
    ensures ChangesFor(a + b, id)
  {
    forall i | 0 <= i < |a + b| ensures (a + b)[i] == (if i < |a| then a[i] else b[i - |a|]) {}
  }

  lemma ChangesOnlyAppend(a: seq<Request>, b: seq<Request>, connect: bool)
    requires ChangesOnly(a, connect) && ChangesOnly(b, connect)
    ensures ChangesOnly(a + b, connect)
  {
    forall i | 0 <= i < |a + b| ensures (a + b)[i] == (if i < |a| then a[i] else b[i - |a|]) {}
  }

  /** What `toggle_speaker` writes after the lookup `f`: nothing more
      when the lookup fails; otherwise only commands for the found id (up
      to case), never a disconnect after a connect, no disconnect for a
      speaker that was not connected, and for a connected one the
      disconnect step first, whose falsy or failed result ends the call
      without a connect. */
  predicate ToggleWrites(f: Outcome<Speaker>, net: Net, o: Outcome<Option<bool>>) {
    DisconnectsFirst(Sent(o.events))
    && (f.result.Err? ==> o.result == Err(f.result.error) && o.events == f.events)
    && (f.result.Ok? ==> ChangesFor(Sent(o.events), f.result.value.id))
    && (f.result.Ok? && !f.result.value.connected ==> ChangesOnly(Sent(o.events), true))
    && (f.result.Ok? && f.result.value.connected ==>
          (var d := SetConnected(f.state, net, f.next, f.result.value.id, "", Resolver.Words([]), false);
           |f.events + d.events| <= |o.events| && o.events[..|f.events + d.events|] == f.events + d.events
           && (d.result.Err? || !Truthy(d.result.value) ==> o.result == d.result && ChangesOnly(Sent(o.events), false))))
  }

  /** `toggle_speaker`: find the speaker; a connected one is disconnected
      first; a truthy result (or a speaker that was not connected) is
      followed by a connect, otherwise that result is returned. Both steps
      look the speaker up again by its id. */
  function ToggleSpeaker(s: State, net: Net, k: nat, id: string, name: string, keywords: Resolver.KeywordArg): (o: Outcome<Option<bool>>)
    ensures o.result.Ok? ==> FindSpeaker(s, net, k, id, name, keywords).result.Ok?
    ensures ToggleWrites(FindSpeaker(s, net, k, id, name, keywords), net, o)
  {
    var f := FindSpeaker(s, net, k, id, name, keywords);
    if f.result.Err? then
      FetchSendsSubscribe(f.events, net.draw(k));
      Abort(f)
    else
      var sel := f.result.value;
      var d := if sel.connected then SetConnected(f.state, net, f.next, sel.id, "", Resolver.Words([]), false)
               else Outcome(f.state, f.next, [], Ok(Some(true)));
      ToggleSteps(f, net, d, net.draw(k));
      Reconnect(f, d, net, sel.id)
  }

  /** The two steps of `toggle_speaker` write what `ToggleWrites` says. */
  lemma ToggleSteps(f: Outcome<Speaker>, net: Net, d: Outcome<Option<bool>>, n: RequestNo)
    requires f.events == [] || f.events == [Send(Command(Subscribe, Decimal(n)))]
    requires f.result.Ok?
    requires d == if f.result.value.connected
      then SetConnected(f.state, net, f.next, f.result.value.id, "", Resolver.Words([]), false)
      else Outcome(f.state, f.next, [], Ok(Some(true)))
    ensures ToggleWrites(f, net, Reconnect(f, d, net, f.result.value.id))
  {
    var id := f.result.value.id;
    SetConnectedFor(f.state, net, f.next, id, false);
    var c := SetConnected(d.state, net, d.next, id, "", Resolver.Words([]), true);
    SetConnectedFor(d.state, net, d.next, id, true);
    ToggleOneSent(f.events, d.events, c.events, id, n);
    ToggleFromSteps(f, net, d, c, Reconnect(f, d, net, id));
  }

  /** `ToggleWrites` from what the lookup `f`, the disconnect step `d` and
      the connect step `c` each write, and from how `o` joins them. */
  lemma ToggleFromSteps(f: Outcome<Speaker>, net: Net, d: Outcome<Option<bool>>, c: Outcome<Option<bool>>, o: Outcome<Option<bool>>)
    requires f.result.Ok?
    requires f.result.value.connected ==>
      d == SetConnected(f.state, net, f.next, f.result.value.id, "", Resolver.Words([]), false)
    requires !f.result.value.connected ==> d.events == [] && d.result == Ok(Some(true))
    requires ChangesFor(Sent(f.events + d.events), f.result.value.id)
    requires ChangesFor(Sent(f.events + d.events + c.events), f.result.value.id)
    requires DisconnectsFirst(Sent(f.events + d.events)) && DisconnectsFirst(Sent(f.events + d.events + c.events))
    requires ChangesOnly(Sent(f.events + d.events), false)
    requires d.events == [] ==> ChangesOnly(Sent(f.events + d.events + c.events), true)
    requires d.result.Err? || !Truthy(d.result.value) ==> o.result == d.result && o.events == f.events + d.events
    requires d.result.Ok? && Truthy(d.result.value) ==> o.events == f.events + d.events + c.events
    ensures ToggleWrites(f, net, o)
  {
    if !f.result.value.connected {
      assert f.events + d.events == f.events;
    } else if d.result.Ok? && Truthy(d.result.value) {
      assert o.events[..|f.events + d.events|] == f.events + d.events;
    }
  }

  /** The second half of `toggle_speaker`: after the disconnect step `d`,
      connect again when it reported a truthy result. */
  function Reconnect(f: Outcome<Speaker>, d: Outcome<Option<bool>>, net: Net, id: string): (o: Outcome<Option<bool>>)
    ensures d.result.Err? || !Truthy(d.result.value) ==> o.result == d.result && o.events == f.events + d.events
    ensures d.result.Ok? && Truthy(d.result.value) ==>
      (var c := SetConnected(d.state, net, d.next, id, "", Resolver.Words([]), true);
       o.result == c.result && o.state == c.state && o.events == f.events + d.events + c.events)
  {
    if d.result.Err? || !Truthy(d.result.value) then Outcome(d.state, d.next, f.events + d.events, d.result)
    else
      var c := SetConnected(d.state, net, d.next, id, "", Resolver.Words([]), true);
      Outcome(c.state, c.next, f.events + d.events + c.events, c.result)
  }

  /** `connect_speaker` or `disconnect_speaker` by id for each id in turn,
      ignoring what each returns; an exception stops the loop. */
  function SetEach(s: State, net: Net, k: nat, ids: seq<string>, connect: bool): (o: Outcome<()>)
    ensures o.next >= k + |ids| || o.result.Err?
    ensures o.result.Ok? ==> o.next <= k + 2 * |ids|
    ensures ChangesOnly(Sent(o.events), connect)
    decreases |ids|
  {
    if ids == [] then Outcome(s, k, [], Ok(()))
    else
      var c := SetConnected(s, net, k, ids[0], "", Resolver.Words([]), connect);
      if c.result.Err? then Abort(c)
      else
        var rest := SetEach(c.state, net, c.next, ids[1..], connect);
        SentAppend(c.events, rest.events);
        Outcome(rest.state, rest.next, c.events + rest.events, rest.result)
  }

  function IdOf(sp: Speaker): string { sp.id }

  /** `[speaker.id for speaker in ss if p(speaker)]`: the ids of the
      speakers `p` picks, in list order, repeated ids included. */
  function IdsWhere(ss: seq<Speaker>, p: Speaker -> bool): (ids: seq<string>)
    ensures |ids| <= |ss|
    ensures ids == Map(Filter(ss, p), IdOf)
    ensures forall x :: x in ids <==> exists i :: 0 <= i < |ss| && p(ss[i]) && ss[i].id == x
    ensures (forall i :: 0 <= i < |ss| ==> !p(ss[i])) ==> ids == []
  {
    if ss == [] then []
    else
      var rest := IdsWhere(ss[1..], p);
      assert forall i :: 0 < i < |ss| ==> ss[i] == ss[1..][i - 1];
      MapFilterCons(ss, p, IdOf);
      (if p(ss[0]) then [ss[0].id] else []) + rest
  }

  function IsConnected(sp: Speaker): bool { sp.connected }

  /** Whether an operation given lists of ids and names acts on a speaker:
      `(ids and speaker.id in ids) or (names and speaker.name in names)`. */
  predicate Chosen(sp: Speaker, ids: seq<string>, names: seq<string>) {
    (ids != [] && sp.id in ids) || (names != [] && sp.name in names)
  }

  /** `Chosen` as a test to filter the cached speakers with. */
  function ChosenBy(ids: seq<string>, names: seq<string>): Speaker -> bool
  {
    (sp: Speaker) => Chosen(sp, ids, names)
  }

  /** The checks of `fade_some`, `mute_some` and `unmute_some` on their
      lists: both must be lists, and exactly one of them non-empty. */
  function ListArgs(ids: ListArg, names: ListArg): (r: Result<()>)
    ensures r.Ok? <==> ids.Listed? && names.Listed? && ((ids.items == []) != (names.items == []))
    ensures ids.Unlisted? ==> r == Err(NotList("ids"))
    ensures ids.Listed? && names.Unlisted? ==> r == Err(NotList("names"))
  {
    if ids.Unlisted? then Err(NotList("ids"))
    else if names.Unlisted? then Err(NotList("names"))
    else if (ids.items == []) == (names.items == []) then Err(NeedIdsOrNames)
    else Ok(())
  }

  /** `toggle_speakers`: fetch the speakers, disconnect every connected one
      by id, then connect each of them again, and report `True`. Every
      disconnect is written before every connect; a run that completes
      looks each connected speaker up once per pass, and writes at most one
      change for it per pass. */
  function ToggleSpeakers(s: State, net: Net, k: nat): (o: Outcome<bool>)
    ensures o.result.Ok? ==> o.result.value
    ensures GetSpeakers(s, net, k).result == Ok(None) ==> o.result == Err(NothingFetched)
    ensures GetSpeakers(s, net, k).result.Err? ==> o == Abort(GetSpeakers(s, net, k))
    ensures DisconnectsFirst(Sent(o.events))
    ensures o.result.Ok? ==> (GetSpeakers(s, net, k).result.Ok? && GetSpeakers(s, net, k).result.value.Some?
      && (var n := |IdsWhere(GetSpeakers(s, net, k).result.value.value, IsConnected)|;
          k + 1 + 2 * n <= o.next <= k + 1 + 4 * n))
    ensures GetSpeakers(s, net, k).result.Ok? && GetSpeakers(s, net, k).result.value.Some? ==>
      (var g := GetSpeakers(s, net, k);
       var ids := IdsWhere(g.result.value.value, IsConnected);
       var d := SetEach(g.state, net, g.next, ids, false);
       var c := SetEach(d.state, net, d.next, ids, true);
       (d.result.Err? ==> o == Outcome(d.state, d.next, g.events + d.events, Err(d.result.error)))
       && (d.result.Ok? ==>
             (o.state == c.state && o.events == g.events + d.events + c.events && (o.result.Ok? <==> c.result.Ok?))))
  {
    var g := GetSpeakers(s, net, k);
    FetchSendsSubscribe(g.events, net.draw(k));
    if g.result.Err? then Abort(g)
    else if g.result.value.None? then Outcome(g.state, g.next, g.events, Err(NothingFetched))
    else
      var ids := IdsWhere(g.result.value.value, IsConnected);
      var d := SetEach(g.state, net, g.next, ids, false);
      var c := SetEach(d.state, net, d.next, ids, true);
      ToggleSent(g.events, d.events, c.events, net.draw(k));
      if d.result.Err? then Outcome(d.state, d.next, g.events + d.events, Err(d.result.error))
      else Outcome(c.state, c.next, g.events + d.events + c.events, if c.result.Err? then Err(c.result.error) else Ok(true))
  }

  /** The fetch, the disconnect pass and the connect pass of
      `toggle_speakers` write no disconnect after a connect, whether or not
      the connect pass runs. */
  lemma ToggleSent(fetch: seq<Event>, off: seq<Event>, on: seq<Event>, n: RequestNo)
    requires fetch == [] || fetch == [Send(Command(Subscribe, Decimal(n)))]
    requires ChangesOnly(Sent(off), false) && ChangesOnly(Sent(on), true)
    ensures DisconnectsFirst(Sent(fetch + off)) && DisconnectsFirst(Sent(fetch + off + on))
  {
    FetchSendsSubscribe(fetch, n);
    SentAppend(fetch, off);
    SentAppend(fetch + off, on);
    DisconnectsThenConnects(Sent(fetch), Sent(off), []);
    assert Sent(fetch) + Sent(off) + [] == Sent(fetch + off);
    DisconnectsThenConnects(Sent(fetch), Sent(off), Sent(on));
  }

  /** With no speaker connected at the fetch, `toggle_speakers` writes
      nothing after it and reports `True`. */
  lemma ToggleNobodyConnected(s: State, net: Net, k: nat)
    requires GetSpeakers(s, net, k).result.Ok? && GetSpeakers(s, net, k).result.value.Some?
    requires forall i :: 0 <= i < |GetSpeakers(s, net, k).result.value.value| ==>
      !GetSpeakers(s, net, k).result.value.value[i].connected
    ensures ToggleSpeakers(s, net, k) ==
      Outcome(GetSpeakers(s, net, k).state, k + 1, GetSpeakers(s, net, k).events, Ok(true))
  {
    var g := GetSpeakers(s, net, k);
    assert IdsWhere(g.result.value.value, IsConnected) == [];
    assert g.events + [] + [] == g.events;
  }

  /** The icon size `get_sources` asks for. */
  const SourceIconSize: int := 10

  /** `get_sources`: one `getSourceList` exchange; the first reply that
      reports any source list gives the sources, which are also cached. */
  function GetSources(s: State, net: Net, k: nat, withIcon: bool): (o: Outcome<Option<seq<Source>>>)
    ensures o.next == k + 1
    ensures o.events == [] || o.events == [Send(Command(GetSourceList(SourceIconSize), Decimal(net.draw(k))))]
    ensures o.state.speakers == s.speakers && o.state.muted == s.muted && o.state.current == s.current
    ensures o.result.Ok? && o.result.value.Some? ==> o.state.sources == o.result.value.value
    ensures !(o.result.Ok? && o.result.value.Some?) ==> o.state.sources == s.sources
    ensures o.result.Ok? && o.result.value.Some? ==> (exists i :: (0 <= i < |net.session(k).replies|
      && ListsSources(net.session(k).replies[i])
      && o.result.value.value == AllSources(net.session(k).replies[i].data.value, withIcon)
      && forall j :: 0 <= j < i ==>
        net.session(k).replies[j].data.Some? && !ListsSources(net.session(k).replies[j])))
  {
    var look := (id: string) => (r: Reply) => SourceList(withIcon, r);
    var run := Exchange(net, k, GetSourceList(SourceIconSize), look);
    if run.result.Ok? && run.result.value.Some? then
      Outcome(s.(sources := run.result.value.value), run.next, run.events, run.result)
    else Outcome(s, run.next, run.events, run.result)
  }

  /** `get_current_source`: one `getSourceMetadata` exchange with the
      pruned request; the first reply with metadata gives the current
      source, which is also cached. */
  function GetCurrentSource(s: State, net: Net, k: nat, w: Wants): (o: Outcome<Option<CurrentSource>>)
    ensures o.next == k + 1
    ensures o.events == [] || o.events == [Send(Command(GetSourceMetadata(RequestedData(w)), Decimal(net.draw(k))))]
    ensures o.state.speakers == s.speakers && o.state.sources == s.sources && o.state.muted == s.muted
    ensures o.result.Ok? && o.result.value.Some? ==> o.state.current == o.result.value
    ensures !(o.result.Ok? && o.result.value.Some?) ==> o.state.current == s.current
    ensures o.result.Ok? && o.result.value.Some? ==> FirstWithMetadata(net.session(k).replies, o.result.value.value)
  {
    var run := FetchCurrent(net, k, GetSourceMetadata(RequestedData(w)));
    if run.result.Ok? && run.result.value.Some? then
      Outcome(s.(current := run.result.value), run.next, run.events, run.result)
    else Outcome(s, run.next, run.events, run.result)
  }

  /** The name of the source `set_source` picks when given no selector. */
  const SystemAudioName: string := "System Audio"

  /** The search of `set_source` over the cached sources: with no selector
      the last source named exactly `System Audio`, otherwise the last
      match of the one selector given. */
  function ChooseSource(sources: seq<Source>, id: string, name: string, keywords: seq<string>): (r: Result<Source>)
    requires Resolver.Given(id, name, Resolver.Words(keywords)) <= 1
    ensures r.Ok? ==> r.value in sources
    ensures Resolver.Given(id, name, Resolver.Words(keywords)) == 0 ==>
      (r.Ok? <==> exists i :: 0 <= i < |sources| && sources[i].name == SystemAudioName)
        && (r.Ok? ==> r.value.name == SystemAudioName)
        && (r.Err? ==> r.error == NoSystemAudio)
    ensures Resolver.Given(id, name, Resolver.Words(keywords)) == 1 ==>
      (r.Err? <==> forall i :: 0 <= i < |sources| ==>
        !Resolver.Matches(Resolver.SelectorOf(id, name, Resolver.Words(keywords)).value, Resolver.SourceHandle(sources[i])))
        && (r.Ok? ==> Resolver.Matches(Resolver.SelectorOf(id, name, Resolver.Words(keywords)).value, Resolver.SourceHandle(r.value)))
  {
    if Resolver.Given(id, name, Resolver.Words(keywords)) == 0 then
      match LastIndex(sources, (src: Source) => src.name == SystemAudioName)
      case None => Err(NoSystemAudio)
      case Some(i) => Ok(sources[i])
    else
      var sel := Resolver.SelectorOf(id, name, Resolver.Words(keywords)).value;
      match Resolver.Pick(Resolver.SourceHandles(sources), sel)
      case Err(e) => Err(e)
      case Ok(i) => Ok(sources[i])
  }

  /** The correlator of `set_source`. */
  function AwaitLeniently(id: string): Reply -> Verdict<bool>
  {
    (r: Reply) => AwaitedLeniently(id, r)
  }

  /** One exchange with the lenient consumer: a result it settles on comes
      from the first reply carrying the request id, and once the command
      is written it settles exactly when such a reply arrives; otherwise
      the stream ends. */
  lemma LenientExchange(net: Net, k: nat, req: Request)
    ensures var run := Exchange(net, k, req, AwaitLeniently);
      run.result.Ok? && run.result.value.Some? ==>
        SettledLeniently(net.session(k).replies, Decimal(net.draw(k)), run.result.value.value)
    ensures var run := Exchange(net, k, req, AwaitLeniently);
      var replies := net.session(k).replies; var rid := Decimal(net.draw(k));
      run.events != [] ==>
        (run.result.Ok? <==> (exists i :: 0 <= i < |replies| && replies[i].replyId == Some(rid)))
        && (run.result.Err? ==> run.result.error == StreamEnded)
  {
    var rid := Decimal(net.draw(k));
    ScanLeniently(net.session(k).replies, rid, AwaitLeniently(rid));
  }

  /** The fetches `set_source` makes before choosing: the sources when
      none are cached, then the current source. */
  function Refresh(s: State, net: Net, k: nat): (o: Outcome<()>)
    ensures s.sources != [] ==> o.state.sources == s.sources
    ensures o.state.speakers == s.speakers && o.state.muted == s.muted
    ensures k <= o.next <= k + 2
  {
    var g := if s.sources == [] then GetSources(s, net, k, false) else Outcome(s, k, [], Ok(None));
    if g.result.Err? then Abort(g)
    else
      var cur := GetCurrentSource(g.state, net, g.next, Wants(false, false, false, false));
      Outcome(cur.state, cur.next, g.events + cur.events, if cur.result.Err? then Err(cur.result.error) else Ok(()))
  }

  /** The end of `set_source`, after the fetches `p`: choose the source
      from the cache and select it under the name of the list of its kind.
      A matching reply without a success flag reports `False`. */
  function SelectChosen(p: Outcome<()>, net: Net, id: string, name: string, keywords: seq<string>): (o: Outcome<Option<bool>>)
    requires p.result.Ok? && Resolver.Given(id, name, Resolver.Words(keywords)) <= 1
    ensures o.state == p.state
    ensures ChooseSource(p.state.sources, id, name, keywords).Err? ==>
      o == Outcome(p.state, p.next, p.events, Err(ChooseSource(p.state.sources, id, name, keywords).error))
    ensures o.result.Ok? && o.result.value.Some? ==> (ChooseSource(p.state.sources, id, name, keywords).Ok?
      && o.events == p.events + [Send(Command(SelectSource(
        ListName(ChooseSource(p.state.sources, id, name, keywords).value.kind),
        ChooseSource(p.state.sources, id, name, keywords).value.id), Decimal(net.draw(p.next))))])
    ensures ChooseSource(p.state.sources, id, name, keywords).Ok? ==>
      (var src := ChooseSource(p.state.sources, id, name, keywords).value;
       var run := Exchange(net, p.next, SelectSource(ListName(src.kind), src.id), AwaitLeniently);
       o.next == run.next && o.events == p.events + run.events && o.result == run.result)
    ensures o.result.Ok? && o.result.value.Some? ==> o.next == p.next + 1
    ensures o.result.Ok? && o.result.value.Some? ==>
      SettledLeniently(net.session(p.next).replies, Decimal(net.draw(p.next)), o.result.value.value)
    ensures ChooseSource(p.state.sources, id, name, keywords).Ok? && o.events != p.events ==>
      (var replies := net.session(p.next).replies; var rid := Decimal(net.draw(p.next));
       (o.result.Ok? <==> (exists i :: 0 <= i < |replies| && replies[i].replyId == Some(rid)))
       && (o.result.Err? ==> o.result.error == StreamEnded))
  {
    match ChooseSource(p.state.sources, id, name, keywords)
    case Err(e) => Outcome(p.state, p.next, p.events, Err(e))
    case Ok(src) =>
      LenientExchange(net, p.next, SelectSource(ListName(src.kind), src.id));
      var run := Exchange(net, p.next, SelectSource(ListName(src.kind), src.id), AwaitLeniently);
      Outcome(p.state, run.next, p.events + run.events, run.result)
  }

  /** `set_source`: more than one selector fails before anything is sent;
      the sources are fetched only when none are cached, then the current
      source is fetched, then the chosen source is selected. */
  function SetSource(s: State, net: Net, k: nat, id: string, name: string, keywords: seq<string>): (o: Outcome<Option<bool>>)
    ensures Resolver.Given(id, name, Resolver.Words(keywords)) > 1 ==>
      o == Outcome(s, k, [], Err(TooManySelectors))
    ensures Resolver.Given(id, name, Resolver.Words(keywords)) <= 1 && Refresh(s, net, k).result.Err? ==>
      o == Abort(Refresh(s, net, k))
    ensures Resolver.Given(id, name, Resolver.Words(keywords)) <= 1 && Refresh(s, net, k).result.Ok? ==>
      o == SelectChosen(Refresh(s, net, k), net, id, name, keywords)
  {
    if Resolver.Given(id, name, Resolver.Words(keywords)) > 1 then Outcome(s, k, [], Err(TooManySelectors))
    else
      var p := Refresh(s, net, k);
      if p.result.Err? then Abort(p)
      else SelectChosen(p, net, id, name, keywords)
  }

  /** What `set_source` returns: when it settles, the value comes from the
      first reply to the select command, its last exchange, that carries
      the command's request id, and it is false when that reply has no
      `data.success`. */
  lemma SetSourceSettles(s: State, net: Net, k: nat, id: string, name: string, keywords: seq<string>)
    ensures var o := SetSource(s, net, k, id, name, keywords); SettlesLast(net, o.next, o.result)
  {
    var o := SetSource(s, net, k, id, name, keywords);
    if Resolver.Given(id, name, Resolver.Words(keywords)) <= 1 {
      var p := Refresh(s, net, k);
      if p.result.Ok? {
        assert o == SelectChosen(p, net, id, name, keywords);
        SettledAfter(p.next, net, o.next, o.result);
      }
    }
  }

  /** A call that ends at request number `next` with `result` settled its
      last exchange, `next - 1`, leniently on that value when it returned
      one. */
  predicate SettlesLast(net: Net, next: nat, result: Result<Option<bool>>) {
    result.Ok? && result.value.Some? ==>
      next > 0 && SettledLeniently(net.session(next - 1).replies, Decimal(net.draw(next - 1)), result.value.value)
  }

  /** The select exchange at `n` is the last one when it settles. */
  lemma SettledAfter(n: nat, net: Net, next: nat, result: Result<Option<bool>>)
    requires result.Ok? && result.value.Some? ==>
      next == n + 1 && SettledLeniently(net.session(n).replies, Decimal(net.draw(n)), result.value.value)
    ensures SettlesLast(net, next, result)
  {
  }


  /** `set_volume`: a volume that is not a number or not within 0..1 fails
      before anything is sent; otherwise find the speaker and send it the
      volume. */
  function SetVolume(s: State, net: Net, k: nat, volume: Quantity, id: string, name: string, keywords: Resolver.KeywordArg): (o: Outcome<Option<bool>>)
    ensures volume.NotANumber? ==> o == Outcome(s, k, [], Err(NotNumber("volume")))
    ensures volume.Amount? && !InRange(volume.scaled) ==> o == Outcome(s, k, [], Err(VolumeOutOfRange))
    ensures volume.Amount? && InRange(volume.scaled) ==>
      o.state == FindSpeaker(s, net, k, id, name, keywords).state
    ensures o.result.Ok? ==> (volume.Amount? && InRange(volume.scaled)
      && FindSpeaker(s, net, k, id, name, keywords).result.Ok?
      && o.result == Exchange(net, k + 1,
        SetSpeakerVolume(FindSpeaker(s, net, k, id, name, keywords).result.value.id, volume.scaled), AwaitSuccess).result)
  {
    if volume.NotANumber? then Outcome(s, k, [], Err(NotNumber("volume")))
    else if !InRange(volume.scaled) then Outcome(s, k, [], Err(VolumeOutOfRange))
    else
      var f := FindSpeaker(s, net, k, id, name, keywords);
      if f.result.Err? then Abort(f)
      else
        var run := Exchange(net, f.next, SetSpeakerVolume(f.result.value.id, volume.scaled), AwaitSuccess);
        Outcome(f.state, run.next, f.events + run.events, run.result)
  }
}

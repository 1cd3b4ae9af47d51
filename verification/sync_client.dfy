/** The synchronous client (`Airfoil`): the same protocol as the
    asynchronous one, but speakers and sources are kept in dictionaries
    keyed by name, the source fetch takes one flag per kind, and
    `toggle_speakers` returns nothing. */
module SyncClient {
  import opened Base
  import opened Protocol
  import opened Framing
  import opened Correlation
  import opened Catalog
  import Resolver
  import Client
  import Text

  /** The attributes of an `Airfoil` that outlive a call. */
  datatype SyncState = SyncState(
    speakers: Dict<Speaker>,            // `self.speakers`, by name
    sources: Dict<Source>,              // `self.sources`, by friendly name
    current: Option<CurrentSource>)     // `self.current_source`

  /** What an operation did: the state it leaves, the index of the next
      exchange, the commands it wrote and its outcome. */
  datatype Done<T> = Done(state: SyncState, next: nat, events: seq<Event>, result: Result<T>)

  function Abort<T, U>(o: Done<U>): (r: Done<T>)
    requires o.result.Err?
    ensures r.state == o.state && r.next == o.next && r.events == o.events && r.result == Err(o.result.error)
  {
    Done(o.state, o.next, o.events, Err(o.result.error))
  }

  /** `get_speakers`: one `subscribe` exchange; the first reply carrying a
      speaker list gives the dictionary, which is also cached. */
  function GetSpeakers(s: SyncState, net: Net, k: nat): (o: Done<Option<Dict<Speaker>>>)
    ensures o.next == k + 1
    ensures o.events == [] || o.events == [Send(Command(Subscribe, Decimal(net.draw(k))))]
    ensures o.state.sources == s.sources && o.state.current == s.current
    ensures o.result.Ok? && o.result.value.Some? ==> o.state.speakers == o.result.value.value
    ensures !(o.result.Ok? && o.result.value.Some?) ==> o.state.speakers == s.speakers
    ensures o.result.Ok? && o.result.value.Some? ==> (exists i :: (0 <= i < |net.session(k).replies|
      && Client.HasSpeakers(net.session(k).replies[i])
      && o.result.value.value == SpeakerDict(net.session(k).replies[i].data.value.speakers.value)
      && forall j :: 0 <= j < i ==> !Client.HasSpeakers(net.session(k).replies[j])))
    ensures o.result.Ok? && o.result.value.Some? ==> UniqueKeys(o.result.value.value)
  {
    var run := Exchange(net, k, Subscribe, (id: string) => SpeakerTable);
    if run.result.Ok? && run.result.value.Some? then
      Done(s.(speakers := run.result.value.value), run.next, run.events, run.result)
    else Done(s, run.next, run.events, run.result)
  }

  /** `speakers.values()` of what the fetch returned, or `None`. */
  function ValuesOf<V>(d: Option<Dict<V>>): (r: Option<seq<V>>)
    ensures r.Some? <==> d.Some?
    ensures r.Some? ==> r.value == Values(d.value)
  {
    if d.None? then None else Some(Values(d.value))
  }

  /** `_find_speaker`: fetch the dictionary, then resolve the selector over
      its values, in insertion order. */
  function FindSpeaker(s: SyncState, net: Net, k: nat, id: string, name: string, keywords: Resolver.KeywordArg): (o: Done<Speaker>)
    ensures o.state == GetSpeakers(s, net, k).state && o.next == k + 1
    ensures o.events == GetSpeakers(s, net, k).events
    ensures GetSpeakers(s, net, k).result.Err? ==> o.result == Err(GetSpeakers(s, net, k).result.error)
    ensures GetSpeakers(s, net, k).result.Ok? ==>
      o.result == Resolver.FindSpeaker(ValuesOf(GetSpeakers(s, net, k).result.value), id, name, keywords)
  {
    var f := GetSpeakers(s, net, k);
    if f.result.Err? then Abort(f)
    else Done(f.state, f.next, f.events, Resolver.FindSpeaker(ValuesOf(f.result.value), id, name, keywords))
  }

  /** `connect_speaker` and `disconnect_speaker`: find the speaker; when it
      is already in the wanted state, report success without writing
      anything more; otherwise `_change_speaker_connected` sends the request
      and returns the success flag of the reply with its id. */
  function SetConnected(s: SyncState, net: Net, k: nat, id: string, name: string, keywords: Resolver.KeywordArg, connect: bool): (o: Done<Option<bool>>)
    ensures o.state == FindSpeaker(s, net, k, id, name, keywords).state
    ensures FindSpeaker(s, net, k, id, name, keywords).result.Err? ==>
      o.result == Err(FindSpeaker(s, net, k, id, name, keywords).result.error)
    ensures (FindSpeaker(s, net, k, id, name, keywords).result.Ok? &&
      FindSpeaker(s, net, k, id, name, keywords).result.value.connected == connect) ==>
      (o.result == Ok(Some(true)) && o.events == FindSpeaker(s, net, k, id, name, keywords).events)
    ensures (FindSpeaker(s, net, k, id, name, keywords).result.Ok? &&
      FindSpeaker(s, net, k, id, name, keywords).result.value.connected != connect) ==>
      o.result == Exchange(net, k + 1, Client.Change(connect, FindSpeaker(s, net, k, id, name, keywords).result.value.id),
        AwaitSuccess).result
  {
    var f := FindSpeaker(s, net, k, id, name, keywords);
    if f.result.Err? then Abort(f)
    else if f.result.value.connected == connect then Done(f.state, f.next, f.events, Ok(Some(true)))
    else
      var run := Exchange(net, f.next, Client.Change(connect, f.result.value.id), AwaitSuccess);
      Done(f.state, run.next, f.events + run.events, run.result)
  }

  function SetEach(s: SyncState, net: Net, k: nat, ids: seq<string>, connect: bool): (o: Done<()>)
    ensures o.result.Ok? ==> o.next >= k + |ids|
    decreases |ids|
  {
    if ids == [] then Done(s, k, [], Ok(()))
    else
      var c := SetConnected(s, net, k, ids[0], "", Resolver.Words([]), connect);
      if c.result.Err? then Abort(c)
      else
        var rest := SetEach(c.state, net, c.next, ids[1..], connect);
        Done(rest.state, rest.next, c.events + rest.events, rest.result)
  }

  /** `toggle_speakers`: fetch, disconnect every connected speaker by id,
      connect each again; it returns nothing. A refused fetch fails when
      its values are asked for. */
  function ToggleSpeakers(s: SyncState, net: Net, k: nat): (o: Done<()>)
    ensures GetSpeakers(s, net, k).result == Ok(None) ==> o.result == Err(NothingFetched)
    ensures GetSpeakers(s, net, k).result.Err? ==> o == Abort(GetSpeakers(s, net, k))
    ensures o.result.Ok? ==> GetSpeakers(s, net, k).result.Ok? && GetSpeakers(s, net, k).result.value.Some?
  {
    var g := GetSpeakers(s, net, k);
    if g.result.Err? then Abort(g)
    else if g.result.value.None? then Done(g.state, g.next, g.events, Err(NothingFetched))
    else
      var ids := Client.IdsWhere(Values(g.result.value.value), Client.IsConnected);
      var d := SetEach(g.state, net, g.next, ids, false);
      if d.result.Err? then Done(d.state, d.next, g.events + d.events, Err(d.result.error))
      else
        var c := SetEach(d.state, net, d.next, ids, true);
        Done(c.state, c.next, g.events + d.events + c.events, c.result)
  }

  /** The icon size the synchronous `get_sources` asks for. */
  const SourceIconSize: int := 16

  /** `get_sources`: one `getSourceList` exchange; the first reply that
      reports any source list gives the dictionary of the flagged kinds,
      which is also cached. */
  function GetSources(s: SyncState, net: Net, k: nat, flags: Categories): (o: Done<Option<Dict<Source>>>)
    ensures o.next == k + 1
    ensures o.events == [] || o.events == [Send(Command(GetSourceList(SourceIconSize), Decimal(net.draw(k))))]
    ensures o.state.speakers == s.speakers && o.state.current == s.current
    ensures o.result.Ok? && o.result.value.Some? ==> o.state.sources == o.result.value.value
    ensures !(o.result.Ok? && o.result.value.Some?) ==> o.state.sources == s.sources
    ensures o.result.Ok? && o.result.value.Some? ==> (exists i :: (0 <= i < |net.session(k).replies|
      && ListsSources(net.session(k).replies[i])
      && o.result.value.value == SourceDict(net.session(k).replies[i].data.value, flags)
      && forall j :: 0 <= j < i ==>
        net.session(k).replies[j].data.Some? && !ListsSources(net.session(k).replies[j])))
    ensures o.result.Ok? && o.result.value.Some? ==> UniqueKeys(o.result.value.value)
  {
    var run := Exchange(net, k, GetSourceList(SourceIconSize), (id: string) => (r: Reply) => SourceTable(flags, r));
    if run.result.Ok? && run.result.value.Some? then
      Done(s.(sources := run.result.value.value), run.next, run.events, run.result)
    else Done(s, run.next, run.events, run.result)
  }

  /** `get_current_source`, as in the asynchronous client. */
  function GetCurrentSource(s: SyncState, net: Net, k: nat, w: Wants): (o: Done<Option<CurrentSource>>)
    ensures o.next == k + 1
    ensures o.events == [] || o.events == [Send(Command(GetSourceMetadata(RequestedData(w)), Decimal(net.draw(k))))]
    ensures o.state.speakers == s.speakers && o.state.sources == s.sources
    ensures o.result.Ok? && o.result.value.Some? ==> o.state.current == o.result.value
    ensures !(o.result.Ok? && o.result.value.Some?) ==> o.state.current == s.current
    ensures o.result.Ok? && o.result.value.Some? ==> FirstWithMetadata(net.session(k).replies, o.result.value.value)
  {
    var run := FetchCurrent(net, k, GetSourceMetadata(RequestedData(w)));
    if run.result.Ok? && run.result.value.Some? then
      Done(s.(current := run.result.value), run.next, run.events, run.result)
    else Done(s, run.next, run.events, run.result)
  }

  /** Every kind, as `get_sources` defaults to. */
  const AllKinds: Categories := Categories(true, true, true, true)

  /** The fetches `set_source` makes before choosing: every kind of source
      when none are cached, then the current source. */
  function Refresh(s: SyncState, net: Net, k: nat): (o: Done<()>)
    ensures s.sources != [] ==> o.state.sources == s.sources
    ensures o.state.speakers == s.speakers
    ensures k <= o.next <= k + 2
  {
    var g := if s.sources == [] then GetSources(s, net, k, AllKinds) else Done(s, k, [], Ok(None));
    if g.result.Err? then Abort(g)
    else
      var cur := GetCurrentSource(g.state, net, g.next, Wants(false, false, false, false));
      Done(cur.state, cur.next, g.events + cur.events, if cur.result.Err? then Err(cur.result.error) else Ok(()))
  }

  /** The end of `set_source`, after the fetches `p`: choose among the
      values of the cached dictionary and select the source under the
      name of the list of its kind. */
  function SelectChosen(p: Done<()>, net: Net, id: string, name: string, keywords: seq<string>): (o: Done<Option<bool>>)
    requires p.result.Ok? && Resolver.Given(id, name, Resolver.Words(keywords)) <= 1
    ensures o.state == p.state
    ensures Client.ChooseSource(Values(p.state.sources), id, name, keywords).Err? ==>
      o == Done(p.state, p.next, p.events, Err(Client.ChooseSource(Values(p.state.sources), id, name, keywords).error))
    ensures o.result.Ok? && o.result.value.Some? ==> (Client.ChooseSource(Values(p.state.sources), id, name, keywords).Ok?
      && o.events == p.events + [Send(Command(SelectSource(
        ListName(Client.ChooseSource(Values(p.state.sources), id, name, keywords).value.kind),
        Client.ChooseSource(Values(p.state.sources), id, name, keywords).value.id), Decimal(net.draw(p.next))))])
    ensures Client.ChooseSource(Values(p.state.sources), id, name, keywords).Ok? ==>
      (var src := Client.ChooseSource(Values(p.state.sources), id, name, keywords).value;
       var run := Exchange(net, p.next, SelectSource(ListName(src.kind), src.id), Client.AwaitLeniently);
       o.next == run.next && o.events == p.events + run.events && o.result == run.result)
    ensures o.result.Ok? && o.result.value.Some? ==> o.next == p.next + 1
    ensures o.result.Ok? && o.result.value.Some? ==>
      SettledLeniently(net.session(p.next).replies, Decimal(net.draw(p.next)), o.result.value.value)
    ensures Client.ChooseSource(Values(p.state.sources), id, name, keywords).Ok? && o.events != p.events ==>
      (var replies := net.session(p.next).replies; var rid := Decimal(net.draw(p.next));
       (o.result.Ok? <==> (exists i :: 0 <= i < |replies| && replies[i].replyId == Some(rid)))
       && (o.result.Err? ==> o.result.error == StreamEnded))
  {
    match Client.ChooseSource(Values(p.state.sources), id, name, keywords)
    case Err(e) => Done(p.state, p.next, p.events, Err(e))
    case Ok(src) =>
      Client.LenientExchange(net, p.next, SelectSource(ListName(src.kind), src.id));
      var run := Exchange(net, p.next, SelectSource(ListName(src.kind), src.id), Client.AwaitLeniently);
      Done(p.state, run.next, p.events + run.events, run.result)
  }

  /** `set_source`: more than one selector fails before anything is sent;
      every kind of source is fetched only when none are cached, then the
      current source, then the chosen source is selected. */
  function SetSource(s: SyncState, net: Net, k: nat, id: string, name: string, keywords: seq<string>): (o: Done<Option<bool>>)
    ensures Resolver.Given(id, name, Resolver.Words(keywords)) > 1 ==>
      o == Done(s, k, [], Err(TooManySelectors))
    ensures Resolver.Given(id, name, Resolver.Words(keywords)) <= 1 && Refresh(s, net, k).result.Err? ==>
      o == Abort(Refresh(s, net, k))
    ensures Resolver.Given(id, name, Resolver.Words(keywords)) <= 1 && Refresh(s, net, k).result.Ok? ==>
      o == SelectChosen(Refresh(s, net, k), net, id, name, keywords)
  {
    if Resolver.Given(id, name, Resolver.Words(keywords)) > 1 then Done(s, k, [], Err(TooManySelectors))
    else
      var p := Refresh(s, net, k);
      if p.result.Err? then Abort(p)
      else SelectChosen(p, net, id, name, keywords)
  }

  /** What `set_source` returns: when it settles, the value comes from the
      first reply to the select command, its last exchange, that carries
      the command's request id, and it is false when that reply has no
      `data.success`. */
  lemma SetSourceSettles(s: SyncState, net: Net, k: nat, id: string, name: string, keywords: seq<string>)
    ensures var o := SetSource(s, net, k, id, name, keywords); Client.SettlesLast(net, o.next, o.result)
  {
    var o := SetSource(s, net, k, id, name, keywords);
    if Resolver.Given(id, name, Resolver.Words(keywords)) <= 1 {
      var p := Refresh(s, net, k);
      if p.result.Ok? {
        assert o == SelectChosen(p, net, id, name, keywords);
        Client.SettledAfter(p.next, net, o.next, o.result);
      }
    }
  }


  /** Whatever the synchronous client finds is the record of the last
      speaker of its name in the reply: the dictionary keeps one record
      per name, so an earlier speaker that shares a name with a later one
      cannot be found at all. */
  lemma FoundIsLastOfName(infos: seq<SpeakerInfo>, id: string, name: string, keywords: Resolver.KeywordArg)
    requires Resolver.FindSpeaker(Some(Values(SpeakerDict(infos))), id, name, keywords).Ok?
    ensures (var sp := Resolver.FindSpeaker(Some(Values(SpeakerDict(infos))), id, name, keywords).value;
      LastWithKey(infos, NameOf, sp.name).Some?
        && sp == SpeakerOf(infos[LastWithKey(infos, NameOf, sp.name).value]))
  {
    var d := SpeakerDict(infos);
    var sp := Resolver.FindSpeaker(Some(Values(d)), id, name, keywords).value;
    var i :| 0 <= i < |d| && Values(d)[i] == sp;
    assert d[i] in d;
    IndexFrom([], infos, NameOf, SpeakerOf, d[i]);
    assert d[i].0 == sp.name;
    LookupEntry(d, i);
    SpeakerDictLast(infos, sp.name);
  }

  /** The dictionary of three speakers of which the first and the last
      share a name. */
  lemma ShadowDict(a: SpeakerInfo, b: SpeakerInfo, c: SpeakerInfo)
    requires a.name == c.name != b.name
    ensures SpeakerDict([a, b, c]) == [(a.name, SpeakerOf(c)), (b.name, SpeakerOf(b))]
  {
    IndexShadow(a, b, c, NameOf, SpeakerOf);
  }

  /** The dictionary of two speakers with different names. */
  lemma PairDict(a: SpeakerInfo, b: SpeakerInfo)
    requires a.name != b.name
    ensures Index([], [a, b], NameOf, SpeakerOf) == [(a.name, SpeakerOf(a)), (b.name, SpeakerOf(b))]
  {
    IndexTwo(a, b, NameOf, SpeakerOf);
  }

  /** Two speakers named alike: the dictionary keeps the place of the
      first and the record of the second, so the first is not found by
      its own id. */
  lemma SharedNameShadows(n: string, m: string)
    requires n != m
    ensures (var a := SpeakerInfo(n, "airplay", "x", 5, false, false);
      var b := SpeakerInfo(m, "airplay", "y", 1, false, false);
      var c := SpeakerInfo(n, "airplay", "z", 7, true, false);
      Keys(SpeakerDict([a, b, c])) == [n, m]
        && Values(SpeakerDict([a, b, c])) == [SpeakerOf(c), SpeakerOf(b)]
        && Resolver.FindSpeaker(Some(Values(SpeakerDict([a, b, c]))), "x", "", Resolver.Words([])) == Err(NotFound(ById("x"))))
  {
    var a := SpeakerInfo(n, "airplay", "x", 5, false, false);
    var b := SpeakerInfo(m, "airplay", "y", 1, false, false);
    var c := SpeakerInfo(n, "airplay", "z", 7, true, false);
    ShadowListing(a, b, c);
    MissingById(Values(SpeakerDict([a, b, c])));
  }

  /** The names and the records of that dictionary, in order. */
  lemma ShadowListing(a: SpeakerInfo, b: SpeakerInfo, c: SpeakerInfo)
    requires a.name == c.name != b.name
    ensures Keys(SpeakerDict([a, b, c])) == [a.name, b.name]
    ensures Values(SpeakerDict([a, b, c])) == [SpeakerOf(c), SpeakerOf(b)]
  {
    ShadowDict(a, b, c);
    PairListing(SpeakerDict([a, b, c]));
  }

  /** Records with ids `z` and `y` leave the id `x` unfound. */
  lemma MissingById(ss: seq<Speaker>)
    requires |ss| == 2 && ss[0].id == "z" && ss[1].id == "y"
    ensures Resolver.FindSpeaker(Some(ss), "x", "", Resolver.Words([])) == Err(NotFound(ById("x")))
  {
    assert Text.Lower("x") == "x" && Text.Lower("y") == "y" && Text.Lower("z") == "z";
    var hs := Resolver.SpeakerHandles(ss);
    assert !Resolver.Matches(ById("x"), hs[0]) && !Resolver.Matches(ById("x"), hs[1]);
    assert Resolver.SelectorOf("x", "", Resolver.Words([])) == Ok(ById("x"));
  }

  /** A search whose only match is the first element finds it. */
  lemma PickOnlyFirst(hs: seq<Resolver.Handle>, sel: Selector)
    requires |hs| > 0 && Resolver.Matches(sel, hs[0])
    requires forall j :: 0 < j < |hs| ==> !Resolver.Matches(sel, hs[j])
    ensures Resolver.Pick(hs, sel) == Ok(0)
  {
  }

  /** The same three speakers as a list, as the asynchronous client keeps
      them: the first is found by its id. */
  lemma ListKeepsShadowed(n: string, m: string)
    ensures (var a := SpeakerInfo(n, "airplay", "x", 5, false, false);
      var b := SpeakerInfo(m, "airplay", "y", 1, false, false);
      var c := SpeakerInfo(n, "airplay", "z", 7, true, false);
      Resolver.FindSpeaker(Some(SpeakersOf([a, b, c])), "x", "", Resolver.Words([])) == Ok(SpeakerOf(a)))
  {
    var a := SpeakerInfo(n, "airplay", "x", 5, false, false);
    var b := SpeakerInfo(m, "airplay", "y", 1, false, false);
    var c := SpeakerInfo(n, "airplay", "z", 7, true, false);
    FoundFirstById(SpeakersOf([a, b, c]));
  }

  /** Of three records with ids `x`, `y` and `z`, the id `x` finds the
      first. */
  lemma FoundFirstById(ss: seq<Speaker>)
    requires |ss| == 3 && ss[0].id == "x" && ss[1].id == "y" && ss[2].id == "z"
    ensures Resolver.FindSpeaker(Some(ss), "x", "", Resolver.Words([])) == Ok(ss[0])
  {
    assert Text.Lower("x") == "x" && Text.Lower("y") == "y" && Text.Lower("z") == "z";
    var hs := Resolver.SpeakerHandles(ss);
    PickOnlyFirst(hs, ById("x"));
    assert Resolver.SelectorOf("x", "", Resolver.Words([])) == Ok(ById("x"));
  }
}

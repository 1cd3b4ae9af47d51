/** How replies become the records the client keeps: speakers, sources and
    the current source, as the asynchronous client builds them (lists) and
    as the synchronous client builds them (dictionaries keyed by name, in
    insertion order), and the metadata request the client prunes before
    sending it. */
module Catalog {
  import opened Base
  import opened Protocol
  import opened Framing
  import opened Keywords
  import opened Correlation

  /** The speaker record built from one entry of a speaker list. */
  function SpeakerOf(s: SpeakerInfo): (r: Speaker)
    ensures r.name == s.name && r.id == s.longIdentifier && r.kind == s.kind
    ensures r.volume == s.volume && r.connected == s.connected && r.password == s.password
    ensures r.keywords == GetKeywords(s.name)
  {
    Speaker(s.name, s.kind, s.longIdentifier, s.volume, s.connected, s.password, GetKeywords(s.name))
  }

  function SpeakersOf(infos: seq<SpeakerInfo>): (r: seq<Speaker>)
    ensures |r| == |infos| && forall i :: 0 <= i < |infos| ==> r[i] == SpeakerOf(infos[i])
  {
    seq(|infos|, i requires 0 <= i < |infos| => SpeakerOf(infos[i]))
  }

  /** `get_speakers` (asynchronous): the first reply with `data.speakers`
      gives the list, whatever its `replyID`; other replies are skipped. */
  function SpeakerList(reply: Reply): (v: Verdict<seq<Speaker>>)
    ensures !v.Fail?
    ensures v.Take? <==> reply.data.Some? && reply.data.value.speakers.Some?
    ensures v.Take? ==> v.value == SpeakersOf(reply.data.value.speakers.value)
  {
    if reply.data.Some? && reply.data.value.speakers.Some? then Take(SpeakersOf(reply.data.value.speakers.value))
    else Skip
  }

  /** Whether a reply reports any source list. */
  predicate HasSourceLists(d: ReplyData) {
    d.audioDevices.Some? || d.runningApplications.Some? || d.recentApplications.Some? || d.systemAudio.Some?
  }

  /** Whether a reply carries `data` reporting any source list. */
  predicate ListsSources(r: Reply) {
    r.data.Some? && HasSourceLists(r.data.value)
  }

  /** Whether a reply carries `data.metadata`. */
  predicate HasMetadata(r: Reply) {
    r.data.Some? && r.data.value.metadata.Some?
  }

  /** `data.get(key, [])` for the list of a kind. */
  function ListOrEmpty(d: ReplyData, k: SourceKind): seq<SourceInfo>
  {
    match ListOf(d, k)
    case None => []
    case Some(xs) => xs
  }

  /** The source record of one entry, tagged with its kind; the icon is
      `src.get('icon', '')` when icons are wanted and `''` otherwise. */
  function SourceOf(s: SourceInfo, k: SourceKind, withIcon: bool): (r: Source)
    ensures r.name == s.friendlyName && r.id == s.identifier && r.kind == k
    ensures r.keywords == GetKeywords(s.friendlyName)
    ensures r.icon == (if withIcon && s.icon.Some? then s.icon.value else "")
  {
    Source(s.friendlyName, s.identifier, k, GetKeywords(s.friendlyName),
      if withIcon && s.icon.Some? then s.icon.value else "")
  }

  function SourcesOf(infos: seq<SourceInfo>, k: SourceKind, withIcon: bool): (r: seq<Source>)
    ensures |r| == |infos| && forall i :: 0 <= i < |infos| ==> r[i] == SourceOf(infos[i], k, withIcon)
  {
    seq(|infos|, i requires 0 <= i < |infos| => SourceOf(infos[i], k, withIcon))
  }

  /** The place of a kind in the order the client adds sources. */
  function KindRank(k: SourceKind): nat
  {
    match k
    case AudioDevice => 0
    case RunningApp => 1
    case RecentApp => 2
    case SystemAudio => 3
  }

  /** The test that keeps the sources of one kind. */
  function KindIs(k: SourceKind): Source -> bool
  {
    (s: Source) => s.kind == k
  }

  /** The kinds of `r` never go back in the order the client adds them. */
  predicate KindsInOrder(r: seq<Source>) {
    forall i, j :: 0 <= i < j < |r| ==> KindRank(r[i].kind) <= KindRank(r[j].kind)
  }

  predicate RanksAtMost(r: seq<Source>, m: nat) {
    forall i :: 0 <= i < |r| ==> KindRank(r[i].kind) <= m
  }

  /** Appending sources of one kind that comes no earlier keeps the order. */
  lemma InOrderAppend(x: seq<Source>, y: seq<Source>, k: SourceKind)
    requires KindsInOrder(x) && RanksAtMost(x, KindRank(k))
    requires forall i :: 0 <= i < |y| ==> y[i].kind == k
    ensures KindsInOrder(x + y) && RanksAtMost(x + y, KindRank(k))
  {
    forall i, j | 0 <= i < j < |x + y|
      ensures KindRank((x + y)[i].kind) <= KindRank((x + y)[j].kind)
    {
      if j < |x| {
        assert (x + y)[i] == x[i] && (x + y)[j] == x[j];
      } else if i < |x| {
        assert (x + y)[i] == x[i] && (x + y)[j] == y[j - |x|];
      } else {
        assert (x + y)[i] == y[i - |x|] && (x + y)[j] == y[j - |x|];
      }
    }
  }

  /** The sources of a reply in the order the client adds them: audio
      devices, running applications, recent applications, system audio.
      The kinds never go back in that order, and `AllSourcesByKind` gives
      the sources of each kind; together they fix every position. */
  function AllSources(d: ReplyData, withIcon: bool): (r: seq<Source>)
    ensures |r| == |ListOrEmpty(d, AudioDevice)| + |ListOrEmpty(d, RunningApp)|
      + |ListOrEmpty(d, RecentApp)| + |ListOrEmpty(d, SystemAudio)|
    ensures KindsInOrder(r)
  {
    var a := SourcesOf(ListOrEmpty(d, AudioDevice), AudioDevice, withIcon);
    var b := SourcesOf(ListOrEmpty(d, RunningApp), RunningApp, withIcon);
    var c := SourcesOf(ListOrEmpty(d, RecentApp), RecentApp, withIcon);
    var e := SourcesOf(ListOrEmpty(d, SystemAudio), SystemAudio, withIcon);
    BlocksInOrder(a, b, c, e);
    a + b + c + e
  }

  /** Four blocks, one per kind in the client's order, are in order. */
  lemma BlocksInOrder(a: seq<Source>, b: seq<Source>, c: seq<Source>, e: seq<Source>)
    requires forall i :: 0 <= i < |a| ==> a[i].kind == AudioDevice
    requires forall i :: 0 <= i < |b| ==> b[i].kind == RunningApp
    requires forall i :: 0 <= i < |c| ==> c[i].kind == RecentApp
    requires forall i :: 0 <= i < |e| ==> e[i].kind == SystemAudio
    ensures KindsInOrder(a + b + c + e)
  {
    var none: seq<Source> := [];
    InOrderAppend(none, a, AudioDevice);
    assert none + a == a;
    InOrderAppend(a, b, RunningApp);
    InOrderAppend(a + b, c, RecentApp);
    InOrderAppend(a + b + c, e, SystemAudio);
  }

  /** Filtering four blocks filters each. */
  lemma FilterFour<T>(a: seq<T>, b: seq<T>, c: seq<T>, e: seq<T>, p: T -> bool)
    ensures Filter(a + b + c + e, p) == Filter(a, p) + Filter(b, p) + Filter(c, p) + Filter(e, p)
  {
    FilterAppend(a + b + c, e, p);
    FilterAppend(a + b, c, p);
    FilterAppend(a, b, p);
  }

  /** Keeping the sources of one kind gives that kind's list of the reply,
      in its order: the records of the other kinds never come between. */
  lemma AllSourcesByKind(d: ReplyData, withIcon: bool, k: SourceKind)
    ensures Filter(AllSources(d, withIcon), KindIs(k)) == SourcesOf(ListOrEmpty(d, k), k, withIcon)
  {
    var a := SourcesOf(ListOrEmpty(d, AudioDevice), AudioDevice, withIcon);
    var b := SourcesOf(ListOrEmpty(d, RunningApp), RunningApp, withIcon);
    var c := SourcesOf(ListOrEmpty(d, RecentApp), RecentApp, withIcon);
    var e := SourcesOf(ListOrEmpty(d, SystemAudio), SystemAudio, withIcon);
    assert AllSources(d, withIcon) == a + b + c + e;
    FilterFour(a, b, c, e, KindIs(k));
    KindFilter(a, AudioDevice, k);
    KindFilter(b, RunningApp, k);
    KindFilter(c, RecentApp, k);
    KindFilter(e, SystemAudio, k);
    var none: seq<Source> := [];
    match k
    case AudioDevice => assert a + none + none + none == a;
    case RunningApp => assert none + b + none + none == b;
    case RecentApp => assert none + none + c + none == c;
    case SystemAudio => assert none + none + none + e == e;
  }

  /** A block of one kind is kept whole by the filter for that kind and
      dropped whole by any other. */
  lemma KindFilter(xs: seq<Source>, kind: SourceKind, k: SourceKind)
    requires forall i :: 0 <= i < |xs| ==> xs[i].kind == kind
    ensures Filter(xs, KindIs(k)) == if kind == k then xs else []
  {
    FilterUniform(xs, KindIs(k));
  }

  /** `get_sources` (asynchronous): every reply must carry `data`; the
      first that reports any source list gives the sources. */
  function SourceList(withIcon: bool, reply: Reply): (v: Verdict<seq<Source>>)
    ensures v.Fail? <==> reply.data.None?
    ensures v.Fail? ==> v.error == MissingKey("data")
    ensures v.Take? <==> reply.data.Some? && HasSourceLists(reply.data.value)
    ensures v.Take? ==> v.value == AllSources(reply.data.value, withIcon)
  {
    if reply.data.None? then Fail(MissingKey("data"))
    else if HasSourceLists(reply.data.value) then Take(AllSources(reply.data.value, withIcon))
    else Skip
  }

  /** A source of a reply keeps the kind of the list it came from. */
  lemma SourcesKeepKind(d: ReplyData, withIcon: bool, k: SourceKind, j: nat)
    requires j < |ListOrEmpty(d, k)|
    ensures SourceOf(ListOrEmpty(d, k)[j], k, withIcon) in AllSources(d, withIcon)
  {
    var a := SourcesOf(ListOrEmpty(d, AudioDevice), AudioDevice, withIcon);
    var b := SourcesOf(ListOrEmpty(d, RunningApp), RunningApp, withIcon);
    var c := SourcesOf(ListOrEmpty(d, RecentApp), RecentApp, withIcon);
    var e := SourcesOf(ListOrEmpty(d, SystemAudio), SystemAudio, withIcon);
    assert AllSources(d, withIcon) == a + b + c + e;
    match k
    case AudioDevice => assert a[j] in a;
    case RunningApp => assert b[j] in b;
    case RecentApp => assert c[j] in c;
    case SystemAudio => assert e[j] in e;
  }

  /** The current source as `get_current_source` reports it; the two flags
      default to `False` when the server leaves them out. */
  datatype CurrentSource = CurrentSource(
    sourceName: Option<string>, hasTrackMetadata: bool, controllable: bool,
    album: Option<string>, artist: Option<string>, title: Option<string>,
    albumArt: Option<string>, sourceIcon: Option<string>, systemIcon: Option<string>)

  function OrFalse(b: Option<bool>): bool { b.Some? && b.value }

  function CurrentOf(m: Metadata): (r: CurrentSource)
    ensures r.sourceName == m.sourceName && r.album == m.album && r.artist == m.artist && r.title == m.title
    ensures r.hasTrackMetadata <==> m.trackMetadataAvailable == Some(true)
    ensures r.controllable <==> m.remoteControlAvailable == Some(true)
    ensures r.albumArt == m.albumArt && r.sourceIcon == m.icon && r.systemIcon == m.machineIconAndScreenshot
  {
    CurrentSource(m.sourceName, OrFalse(m.trackMetadataAvailable), OrFalse(m.remoteControlAvailable),
      m.album, m.artist, m.title, m.albumArt, m.icon, m.machineIconAndScreenshot)
  }

  /** `get_current_source`: every reply must carry `data`; the first with
      `data.metadata` gives the current source. */
  function CurrentSourceReply(reply: Reply): (v: Verdict<CurrentSource>)
    ensures v.Fail? <==> reply.data.None?
    ensures v.Take? <==> reply.data.Some? && reply.data.value.metadata.Some?
    ensures v.Take? ==> v.value == CurrentOf(reply.data.value.metadata.value)
  {
    if reply.data.None? then Fail(MissingKey("data"))
    else if reply.data.value.metadata.Some? then Take(CurrentOf(reply.data.value.metadata.value))
    else Skip
  }

  /** `v` is the current source the first reply with metadata reports,
      and every reply before it carries `data` without metadata. */
  predicate FirstWithMetadata(replies: seq<Reply>, v: CurrentSource) {
    exists i :: (0 <= i < |replies| && HasMetadata(replies[i])
      && v == CurrentOf(replies[i].data.value.metadata.value)
      && forall j :: 0 <= j < i ==> replies[j].data.Some? && !HasMetadata(replies[j]))
  }

  /** The consumer loop of `get_current_source` settles on the first reply
      with metadata; every reply before it carries `data` without. */
  lemma CurrentFromFirst(replies: seq<Reply>, v: CurrentSource)
    requires Scan(replies, CurrentSourceReply) == Ok(v)
    ensures FirstWithMetadata(replies, v)
  {
    var i :| 0 <= i < |replies| && CurrentSourceReply(replies[i]) == Take(v)
      && forall j :: 0 <= j < i ==> CurrentSourceReply(replies[j]).Skip?;
    assert forall j :: 0 <= j < i ==> replies[j].data.Some? && !HasMetadata(replies[j]) by {
      forall j | 0 <= j < i ensures replies[j].data.Some? && !HasMetadata(replies[j]) {
        assert CurrentSourceReply(replies[j]).Skip?;
      }
    }
  }

  /** The exchange of `get_current_source`: one `getSourceMetadata`
      request, whose first reply with metadata gives the current source. */
  function FetchCurrent(net: Net, k: nat, req: Request): (run: Run<CurrentSource>)
    ensures run.next == k + 1
    ensures run.events == [] || run.events == [Send(Command(req, Decimal(net.draw(k))))]
    ensures run.result.Ok? && run.result.value.Some? ==> FirstWithMetadata(net.session(k).replies, run.result.value.value)
  {
    var run := Exchange(net, k, req, (id: string) => CurrentSourceReply);
    if run.result.Ok? && run.result.value.Some? then
      CurrentFromFirst(net.session(k).replies, run.result.value.value);
      run
    else run
  }

  /** The flags of `get_current_source` that prune the request. */
  datatype Wants = Wants(machineIcon: bool, albumArt: bool, sourceIcon: bool, trackMeta: bool)

  /** The fields of the full `requestedData`, in its order. */
  const Fields: seq<MetaField> := [
    MachineIconAndScreenshot, AlbumArt, Icon, Artist, Album, Title,
    SourceName, BundleId, TrackMetadataAvailable, RemoteControlAvailable]

  /** The value sent for a field: icon sizes, and otherwise the string
      `"true"`, except that without track metadata the server is told
      `trackMetadataAvailable="false"`. */
  function Requested(f: MetaField, w: Wants): Value
  {
    match f
    case MachineIconAndScreenshot => Num(300)
    case AlbumArt => Num(300)
    case Icon => Num(32)
    case TrackMetadataAvailable => Str(if w.trackMeta then "true" else "false")
    case _ => Str("true")
  }

  /** Whether the pruning keeps a field. */
  predicate Wanted(f: MetaField, w: Wants) {
    match f
    case MachineIconAndScreenshot => w.machineIcon
    case AlbumArt => w.albumArt
    case Icon => w.sourceIcon
    case Artist => w.trackMeta
    case Album => w.trackMeta
    case Title => w.trackMeta
    case _ => true
  }

  function Prune(fs: seq<MetaField>, w: Wants): seq<(MetaField, Value)>
  {
    if fs == [] then []
    else (if Wanted(fs[0], w) then [(fs[0], Requested(fs[0], w))] else []) + Prune(fs[1..], w)
  }

  /** The `requestedData` `get_current_source` sends. */
  function RequestedData(w: Wants): seq<(MetaField, Value)>
  {
    Prune(Fields, w)
  }

  /** Pruning keeps exactly the wanted fields, each with its value. */
  lemma {:induction false} PruneKeeps(fs: seq<MetaField>, w: Wants, f: MetaField, v: Value)
    ensures (f, v) in Prune(fs, w) <==> f in fs && Wanted(f, w) && v == Requested(f, w)
  {
    if fs != [] {
      PruneKeeps(fs[1..], w, f, v);
      assert f in fs <==> f == fs[0] || f in fs[1..];
    }
  }

  /** The request as sent for every choice of flags: icons and album art
      only when asked for, artist, album and title only with track
      metadata, the other fields always, and the track-metadata flag set to
      whether track metadata was asked for. */
  lemma RequestedDataContents(w: Wants, f: MetaField, v: Value)
    ensures (f, v) in RequestedData(w) <==> Wanted(f, w) && v == Requested(f, w)
  {
    PruneKeeps(Fields, w, f, v);
    assert f in Fields by {
      match f
      case MachineIconAndScreenshot => assert Fields[0] == f;
      case AlbumArt => assert Fields[1] == f;
      case Icon => assert Fields[2] == f;
      case Artist => assert Fields[3] == f;
      case Album => assert Fields[4] == f;
      case Title => assert Fields[5] == f;
      case SourceName => assert Fields[6] == f;
      case BundleId => assert Fields[7] == f;
      case TrackMetadataAvailable => assert Fields[8] == f;
      case RemoteControlAvailable => assert Fields[9] == f;
    }
  }

  /** An ordered dictionary with string keys: Python's `dict`, whose
      iteration follows first insertion. */
  type Dict<V> = seq<(string, V)>

  function Keys<V>(d: Dict<V>): (ks: seq<string>)
    ensures |ks| == |d| && forall i :: 0 <= i < |d| ==> ks[i] == d[i].0
  {
    seq(|d|, i requires 0 <= i < |d| => d[i].0)
  }

  function Values<V>(d: Dict<V>): (vs: seq<V>)
    ensures |vs| == |d| && forall i :: 0 <= i < |d| ==> vs[i] == d[i].1
  {
    seq(|d|, i requires 0 <= i < |d| => d[i].1)
  }

  predicate UniqueKeys<V>(d: Dict<V>) {
    forall i, j :: 0 <= i < j < |d| ==> d[i].0 != d[j].0
  }

  function Lookup<V>(d: Dict<V>, k: string): (r: Option<V>)
    ensures r.None? <==> forall i :: 0 <= i < |d| ==> d[i].0 != k
    ensures r.Some? ==> (k, r.value) in d
  {
    if d == [] then None
    else if d[0].0 == k then Some(d[0].1)
    else
      var r := Lookup(d[1..], k);
      assert forall i :: 0 < i < |d| ==> d[i] == d[1..][i - 1];
      r
  }

  predicate HasKey<V>(d: Dict<V>, k: string) {
    exists i :: 0 <= i < |d| && d[i].0 == k
  }

  /** `d[k] = v`: a new key goes last, an old key keeps its place. */
  function Put<V>(d: Dict<V>, k: string, v: V): (r: Dict<V>)
    ensures HasKey(d, k) ==> |r| == |d|
    ensures !HasKey(d, k) ==> r == d + [(k, v)]
    ensures forall i :: 0 <= i < |d| ==> r[i].0 == d[i].0
    ensures forall i :: 0 <= i < |d| && d[i].0 != k ==> r[i] == d[i]
  {
    if d == [] then [(k, v)]
    else if d[0].0 == k then [(k, v)] + d[1..]
    else
      var rest := Put(d[1..], k, v);
      assert HasKey(d, k) ==> HasKey(d[1..], k) by {
        if HasKey(d, k) {
          var i :| 0 <= i < |d| && d[i].0 == k;
          assert d[1..][i - 1] == d[i];
        }
      }
      assert HasKey(d[1..], k) ==> HasKey(d, k) by {
        if HasKey(d[1..], k) {
          var i :| 0 <= i < |d[1..]| && d[1..][i].0 == k;
          assert d[i + 1] == d[1..][i];
        }
      }
      var r := [d[0]] + rest;
      assert forall i :: 0 < i < |d| ==> d[i] == d[1..][i - 1] && r[i] == rest[i - 1];
      r
  }

  /** Assignment keeps the keys unique. */
  lemma PutUnique<V>(d: Dict<V>, k: string, v: V)
    requires UniqueKeys(d)
    ensures UniqueKeys(Put(d, k, v))
  {
  }

  /** After `d[k] = v`, `k` gives `v` and every other key what it gave. */
  lemma {:induction false} PutLookup<V>(d: Dict<V>, k: string, v: V, k2: string)
    requires UniqueKeys(d)
    ensures Lookup(Put(d, k, v), k2) == if k2 == k then Some(v) else Lookup(d, k2)
  {
    if d != [] && d[0].0 != k {
      PutLookup(d[1..], k, v, k2);
      assert Put(d, k, v) == [d[0]] + Put(d[1..], k, v);
    }
  }

  /** The loop `for x in xs: d[key(x)] = val(x)`. */
  function Index<T, V>(d: Dict<V>, xs: seq<T>, key: T -> string, val: T -> V): (r: Dict<V>)
    ensures UniqueKeys(d) ==> UniqueKeys(r)
  {
    if xs == [] then d
    else
      var x := xs[|xs| - 1];
      var prev := Index(d, xs[..|xs| - 1], key, val);
      if UniqueKeys(d) then PutUnique(prev, key(x), val(x)); Put(prev, key(x), val(x))
      else Put(prev, key(x), val(x))
  }

  /** Every entry after `d[k] = v` was already there or is the new one. */
  lemma {:induction false} PutFrom<V>(d: Dict<V>, k: string, v: V, e: (string, V))
    requires e in Put(d, k, v)
    ensures e in d || e == (k, v)
  {
    if d != [] && d[0].0 != k {
      assert Put(d, k, v) == [d[0]] + Put(d[1..], k, v);
      if e != d[0] {
        PutFrom(d[1..], k, v, e);
      }
    }
  }

  /** Every entry of `Index(d, xs, key, val)` was in `d` or comes from an
      element of `xs`. */
  lemma {:induction false} IndexFrom<T, V>(d: Dict<V>, xs: seq<T>, key: T -> string, val: T -> V, e: (string, V))
    requires e in Index(d, xs, key, val)
    ensures e in d || exists j :: 0 <= j < |xs| && e == (key(xs[j]), val(xs[j]))
  {
    if xs != [] {
      var init := xs[..|xs| - 1];
      var x := xs[|xs| - 1];
      PutFrom(Index(d, init, key, val), key(x), val(x), e);
      if e != (key(x), val(x)) {
        IndexFrom(d, init, key, val, e);
        if e !in d {
          var j :| 0 <= j < |init| && e == (key(init[j]), val(init[j]));
          assert xs[j] == init[j];
        }
      }
    }
  }

  /** Under unique keys, an entry is what its key looks up. */
  lemma {:induction false} LookupEntry<V>(d: Dict<V>, i: nat)
    requires UniqueKeys(d) && i < |d|
    ensures Lookup(d, d[i].0) == Some(d[i].1)
  {
    if i > 0 {
      assert d[0].0 != d[i].0;
      assert d[1..][i - 1] == d[i];
      LookupEntry(d[1..], i - 1);
    }
  }

  /** One more element is one more assignment. */
  lemma IndexSnoc<T, V>(d: Dict<V>, xs: seq<T>, x: T, key: T -> string, val: T -> V)
    ensures Index(d, xs + [x], key, val) == Put(Index(d, xs, key, val), key(x), val(x))
  {
    assert (xs + [x])[..|xs|] == xs;
  }

  /** Indexing one element gives one entry. */
  lemma IndexOne<T, V>(x: T, key: T -> string, val: T -> V)
    ensures Index([], [x], key, val) == [(key(x), val(x))]
  {
    assert [x][..0] == [];
    var e: Dict<V> := [];
    assert Index(e, [], key, val) == e;
    assert !HasKey(e, key(x));
    assert e + [(key(x), val(x))] == [(key(x), val(x))];
  }

  /** Indexing two elements with different keys gives two entries, in order. */
  lemma IndexTwo<T, V>(x: T, y: T, key: T -> string, val: T -> V)
    requires key(x) != key(y)
    ensures Index([], [x, y], key, val) == [(key(x), val(x)), (key(y), val(y))]
  {
    var d1 := [(key(x), val(x))];
    assert Index([], [x, y], key, val) == Put(d1, key(y), val(y)) by {
      IndexOne(x, key, val);
      IndexSnoc([], [x], y, key, val);
      assert [x] + [y] == [x, y];
    }
    assert Put(d1, key(y), val(y)) == d1 + [(key(y), val(y))] by {
      assert !HasKey(d1, key(y));
    }
  }

  /** Indexing three elements of which the first and the last share a key:
      the key keeps its first place and takes the last value. */
  lemma IndexShadow<T, V>(x: T, y: T, z: T, key: T -> string, val: T -> V)
    requires key(x) == key(z) != key(y)
    ensures Index([], [x, y, z], key, val) == [(key(x), val(z)), (key(y), val(y))]
  {
    var d2 := [(key(x), val(x)), (key(y), val(y))];
    assert Index([], [x, y, z], key, val) == Put(d2, key(z), val(z)) by {
      IndexTwo(x, y, key, val);
      IndexSnoc([], [x, y], z, key, val);
      assert [x, y] + [z] == [x, y, z];
    }
    assert Put(d2, key(z), val(z)) == [(key(z), val(z))] + d2[1..];
  }

  /** The keys and the values of a two-entry dictionary. */
  lemma PairListing<V>(d: Dict<V>)
    requires |d| == 2
    ensures Keys(d) == [d[0].0, d[1].0] && Values(d) == [d[0].1, d[1].1]
  {
  }

  /** The position of the last element whose key is `n`. */
  function LastWithKey<T>(xs: seq<T>, key: T -> string, n: string): (r: Option<nat>)
    ensures r.Some? ==> r.value < |xs| && key(xs[r.value]) == n
    ensures r.Some? ==> forall j :: r.value < j < |xs| ==> key(xs[j]) != n
    ensures r.None? <==> forall j :: 0 <= j < |xs| ==> key(xs[j]) != n
  {
    LastIndex(xs, (x: T) => key(x) == n)
  }

  /** When two elements share a key, the later replaces the earlier: a key
      gives the value of the last element with that key, and keys no
      element has give what they gave before. */
  lemma {:induction false} IndexLast<T, V>(d: Dict<V>, xs: seq<T>, key: T -> string, val: T -> V, n: string)
    requires UniqueKeys(d)
    ensures Lookup(Index(d, xs, key, val), n) ==
      match LastWithKey(xs, key, n)
      case None => Lookup(d, n)
      case Some(i) => Some(val(xs[i]))
  {
    if xs != [] {
      var init := xs[..|xs| - 1];
      IndexLast(d, init, key, val, n);
      PutLookup(Index(d, init, key, val), key(xs[|xs| - 1]), val(xs[|xs| - 1]), n);
    }
  }

  function NameOf(s: SpeakerInfo): string { s.name }

  function FriendlyName(s: SourceInfo): string { s.friendlyName }

  /** The dictionary the synchronous `get_speakers` builds: one entry per
      name. */
  function SpeakerDict(infos: seq<SpeakerInfo>): (d: Dict<Speaker>)
    ensures UniqueKeys(d)
  {
    Index([], infos, NameOf, SpeakerOf)
  }

  /** A name gives the record of the last speaker with that name. */
  lemma SpeakerDictLast(infos: seq<SpeakerInfo>, n: string)
    ensures UniqueKeys(SpeakerDict(infos))
    ensures Lookup(SpeakerDict(infos), n) ==
      match LastWithKey(infos, NameOf, n)
      case None => None
      case Some(i) => Some(SpeakerOf(infos[i]))
  {
    IndexLast([], infos, NameOf, SpeakerOf, n);
  }

  /** `get_speakers` (synchronous): the first reply with `data.speakers`
      gives the dictionary. */
  function SpeakerTable(reply: Reply): (v: Verdict<Dict<Speaker>>)
    ensures !v.Fail?
    ensures v.Take? <==> reply.data.Some? && reply.data.value.speakers.Some?
    ensures v.Take? ==> v.value == SpeakerDict(reply.data.value.speakers.value)
  {
    if reply.data.Some? && reply.data.value.speakers.Some? then Take(SpeakerDict(reply.data.value.speakers.value))
    else Skip
  }

  /** The flags of the synchronous `get_sources`, one per kind. */
  datatype Categories = Categories(audioDevice: bool, runningApps: bool, recentApps: bool, systemAudio: bool)

  predicate Includes(flags: Categories, k: SourceKind) {
    match k
    case AudioDevice => flags.audioDevice
    case RunningApp => flags.runningApps
    case RecentApp => flags.recentApps
    case SystemAudio => flags.systemAudio
  }

  /** Adds the sources of one kind, keyed by friendly name, when its flag
      is set; the synchronous client always keeps the icon. */
  function AddKind(d: Dict<Source>, r: ReplyData, flags: Categories, k: SourceKind): Dict<Source>
  {
    if Includes(flags, k) then Index(d, ListOrEmpty(r, k), FriendlyName, (s: SourceInfo) => SourceOf(s, k, true))
    else d
  }

  function SourceDict(r: ReplyData, flags: Categories): (d: Dict<Source>)
    ensures UniqueKeys(d)
  {
    AddKind(AddKind(AddKind(AddKind([], r, flags, AudioDevice), r, flags, RunningApp), r, flags, RecentApp), r, flags, SystemAudio)
  }

  /** A source of a kind whose flag is set is found under its friendly name
      unless a later one of that kind, or one of a later kind, reuses the
      name; with the flag unset, the kind adds nothing. */
  lemma AddKindLast(d: Dict<Source>, r: ReplyData, flags: Categories, k: SourceKind, n: string)
    requires UniqueKeys(d)
    ensures !Includes(flags, k) ==> AddKind(d, r, flags, k) == d
    ensures Includes(flags, k) ==> (Lookup(AddKind(d, r, flags, k), n) ==
      match LastWithKey(ListOrEmpty(r, k), FriendlyName, n)
      case None => Lookup(d, n)
      case Some(i) => Some(SourceOf(ListOrEmpty(r, k)[i], k, true)))
  {
    if Includes(flags, k) {
      IndexLast(d, ListOrEmpty(r, k), FriendlyName, (s: SourceInfo) => SourceOf(s, k, true), n);
    }
  }

  /** `get_sources` (synchronous): every reply must carry `data`; the first
      that reports any source list gives the dictionary, with the lists of
      unset flags left out. */
  function SourceTable(flags: Categories, reply: Reply): (v: Verdict<Dict<Source>>)
    ensures v.Fail? <==> reply.data.None?
    ensures v.Take? <==> reply.data.Some? && HasSourceLists(reply.data.value)
    ensures v.Take? ==> v.value == SourceDict(reply.data.value, flags)
  {
    if reply.data.None? then Fail(MissingKey("data"))
    else if HasSourceLists(reply.data.value) then Take(SourceDict(reply.data.value, flags))
    else Skip
  }

  /** With every flag unset the dictionary is empty, even when the reply
      reports sources. */
  lemma NoKindsNoSources(r: ReplyData)
    ensures SourceDict(r, Categories(false, false, false, false)) == []
  {
  }
}

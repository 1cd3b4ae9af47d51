/** The vocabulary the client and the Airfoil server exchange: the requests
    the client sends, the replies the server streams back (already parsed
    from JSON), the events of a run of the client, and the speaker and source
    records the client builds from the replies. */
module Protocol {
  import opened Base

  /** A request number, drawn by `random.randint(1, 1000)`. */
  type RequestNo = x: int | 1 <= x <= 1000 witness 1

  /** The four kinds of audio source, by the `type` tag the client puts on a
      source record. */
  datatype SourceKind = AudioDevice | RunningApp | RecentApp | SystemAudio

  /** The `type` tag of a source record. */
  function TagName(k: SourceKind): string
  {
    match k
    case AudioDevice => "audio_device"
    case RunningApp => "running_apps"
    case RecentApp => "recent_apps"
    case SystemAudio => "system_audio"
  }

  /** The key of the source list a kind is reported under, which is also the
      `type` a `selectSource` request names (the `types` table of
      `set_source`). */
  function ListName(k: SourceKind): string
  {
    match k
    case AudioDevice => "audioDevices"
    case RunningApp => "runningApplications"
    case RecentApp => "recentApplications"
    case SystemAudio => "systemAudio"
  }

  /** A scalar inside a request: a number or a string. */
  datatype Value = Num(n: int) | Str(s: string)

  /** The entries of the `requestedData` part of a metadata request. */
  datatype MetaField =
    | MachineIconAndScreenshot | AlbumArt | Icon | Artist | Album | Title
    | SourceName | BundleId | TrackMetadataAvailable | RemoteControlAvailable

  /** A request the client sends, without its request id. Volumes are integer
      millionths. */
  datatype Request =
    | Subscribe                                        // get_speakers
    | GetSourceList(iconSize: int)                     // get_sources
    | GetSourceMetadata(requested: seq<(MetaField, Value)>)
    | ConnectToSpeaker(speaker: string)
    | DisconnectSpeaker(speaker: string)
    | SetSpeakerVolume(speaker: string, volume: int)
    | SelectSource(listName: string, source: string)

  /** A request together with the `requestID` written into it. */
  datatype Command = Command(request: Request, requestId: string)

  /** What a run of the client does to the outside world, in order. A sleep
      is measured in ten-thousandths of a second. */
  datatype Event = Send(command: Command) | Sleep(units: int)

  /** One entry of the `speakers` list of a reply. */
  datatype SpeakerInfo = SpeakerInfo(
    name: string, kind: string, longIdentifier: string,
    volume: int, connected: bool, password: bool)

  /** One entry of a source list of a reply. */
  datatype SourceInfo = SourceInfo(friendlyName: string, identifier: string, icon: Option<string>)

  /** The `metadata` part of a reply to a metadata request. */
  datatype Metadata = Metadata(
    sourceName: Option<string>, trackMetadataAvailable: Option<bool>,
    remoteControlAvailable: Option<bool>, album: Option<string>, artist: Option<string>,
    title: Option<string>, albumArt: Option<string>, icon: Option<string>,
    machineIconAndScreenshot: Option<string>)

  /** The `data` object of a reply; a key the server left out is `None`. */
  datatype ReplyData = ReplyData(
    success: Option<bool>,
    speakers: Option<seq<SpeakerInfo>>,
    audioDevices: Option<seq<SourceInfo>>,
    runningApplications: Option<seq<SourceInfo>>,
    recentApplications: Option<seq<SourceInfo>>,
    systemAudio: Option<seq<SourceInfo>>,
    metadata: Option<Metadata>)

  /** One decoded reply object. */
  datatype Reply = Reply(replyId: Option<string>, data: Option<ReplyData>)

  /** What one `read(128)` returns: at most 128 bytes. */
  type Answer = s: seq<byte> | |s| <= 128

  /** What the server does on one connection: the bytes its first read
      returns (the answer to the greeting), then the replies it streams
      before the connection stops delivering. */
  datatype Session = Session(greeting: Answer, replies: seq<Reply>)

  /** A speaker record as the client keeps it. */
  datatype Speaker = Speaker(
    name: string, kind: string, id: string, volume: int,
    connected: bool, password: bool, keywords: seq<string>)

  /** A source record as the client keeps it. */
  datatype Source = Source(name: string, id: string, kind: SourceKind, keywords: seq<string>, icon: string)

  /** The source list of a kind in a reply. */
  function ListOf(d: ReplyData, k: SourceKind): Option<seq<SourceInfo>>
  {
    match k
    case AudioDevice => d.audioDevices
    case RunningApp => d.runningApplications
    case RecentApp => d.recentApplications
    case SystemAudio => d.systemAudio
  }
}

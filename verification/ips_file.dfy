/**
 * The crash-report container: an `.ips` file is a JSON header line followed
 * by a JSON body, and every record in it is decoded tolerantly, with absent
 * fields taking their defaults. Only the body fields the symbolicator reads
 * are kept (see the README).
 */
module Ips {
  import opened Wrappers
  import opened Text
  import opened Json

  type byte = x: int | 0 <= x < 256

  const NEWLINE: byte := 10

  /** The largest length a Rust `Vec` can have (`isize::MAX`). */
  const ISIZE_MAX: int := 0x7FFF_FFFF_FFFF_FFFF

  // ------------------------------------------------------------ records

  datatype Frame = Frame(
    imageOffset: I64,
    symbol: Option<string>,
    symbolLocation: Option<I64>,
    imageIndex: I64)

  datatype Thread = Thread(
    id: I64,
    triggered: Option<bool>,
    name: Option<string>,
    queue: Option<string>,
    frames: seq<Frame>)

  datatype UsedImage = UsedImage(
    source: string,
    arch: Option<string>,
    base: I64,
    cfBundleShortVersionString: Option<string>,
    cfBundleIdentifier: Option<string>,
    size: I64,
    uuid: string,
    path: Option<string>,
    name: Option<string>,
    cfBundleVersion: Option<string>)

  datatype ThreadTriggered = ThreadTriggered(name: string, queue: string)

  datatype LegacyInfo = LegacyInfo(threadTriggered: ThreadTriggered)

  datatype Header = Header(
    appName: string,
    timestamp: string,
    appVersion: string,
    sliceUuid: string,
    buildVersion: string,
    platform: I64,
    bundleId: string,
    shareWithAppDevs: I64,
    isFirstParty: I64,
    bugType: string,
    osVersion: string,
    rootsInstalled: I64,
    name: string,
    incidentId: string)

  datatype Body = Body(
    faultingThread: Option<I64>,
    threads: seq<Thread>,
    usedImages: seq<UsedImage>,
    legacyInfo: LegacyInfo)

  datatype IpsFile = IpsFile(header: Header, body: Body)

  // The `Default` value of each record: empty strings, zeros, `None`s and empty vectors.
  const DefaultFrame := Frame(0, None, None, 0)
  const DefaultThread := Thread(0, None, None, None, [])
  const DefaultUsedImage := UsedImage("", None, 0, None, None, 0, "", None, None, None)
  const DefaultThreadTriggered := ThreadTriggered("", "")
  const DefaultLegacyInfo := LegacyInfo(DefaultThreadTriggered)
  const DefaultHeader := Header("", "", "", "", "", 0, "", 0, 0, "", "", 0, "", "")
  const DefaultBody := Body(None, [], [], DefaultLegacyInfo)

  // ------------------------------------------------------------ decoding

  function OptionalString(j: Json): Result<Option<string>, DecodeError> {
    DecodeOption(j, DecodeString)
  }

  function OptionalI64(j: Json): Result<Option<I64>, DecodeError> {
    DecodeOption(j, DecodeI64)
  }

  function OptionalBool(j: Json): Result<Option<bool>, DecodeError> {
    DecodeOption(j, DecodeBool)
  }

  /** `Frame`: `#[serde(rename_all = "camelCase", default)]`. */
  function FrameFields(m: Members): Result<Frame, DecodeError> {
    var imageOffset :- DefaultField(m, "imageOffset", DecodeI64, 0);
    var symbol :- DefaultField(m, "symbol", OptionalString, None);
    var symbolLocation :- DefaultField(m, "symbolLocation", OptionalI64, None);
    var imageIndex :- DefaultField(m, "imageIndex", DecodeI64, 0);
    Success(Frame(imageOffset, symbol, symbolLocation, imageIndex))
  }

  function DecodeFrame(j: Json): Result<Frame, DecodeError> {
    DecodeStruct(j, FrameFields)
  }

  /** `Thread`: `#[serde(rename_all = "camelCase", default)]`; the register state is checked to be a map and dropped. */
  function ThreadFields(m: Members): Result<Thread, DecodeError> {
    var _ :- DefaultField(m, "threadState", DecodeAnyMap, ());
    var id :- DefaultField(m, "id", DecodeI64, 0);
    var triggered :- DefaultField(m, "triggered", OptionalBool, None);
    var name :- DefaultField(m, "name", OptionalString, None);
    var queue :- DefaultField(m, "queue", OptionalString, None);
    var frames :- DefaultField(m, "frames", j => DecodeVec(j, DecodeFrame), []);
    Success(Thread(id, triggered, name, queue, frames))
  }

  function DecodeThread(j: Json): Result<Thread, DecodeError> {
    DecodeStruct(j, ThreadFields)
  }

  /** `UsedImage`: `#[serde(rename_all = "camelCase", default)]`, bundle keys renamed. */
  function UsedImageFields(m: Members): Result<UsedImage, DecodeError> {
    var source :- DefaultField(m, "source", DecodeString, "");
    var arch :- DefaultField(m, "arch", OptionalString, None);
    var base :- DefaultField(m, "base", DecodeI64, 0);
    var shortVersion :- DefaultField(m, "CFBundleShortVersionString", OptionalString, None);
    var identifier :- DefaultField(m, "CFBundleIdentifier", OptionalString, None);
    var size :- DefaultField(m, "size", DecodeI64, 0);
    var uuid :- DefaultField(m, "uuid", DecodeString, "");
    var path :- DefaultField(m, "path", OptionalString, None);
    var name :- DefaultField(m, "name", OptionalString, None);
    var version :- DefaultField(m, "CFBundleVersion", OptionalString, None);
    Success(UsedImage(source, arch, base, shortVersion, identifier, size, uuid, path, name, version))
  }

  function DecodeUsedImage(j: Json): Result<UsedImage, DecodeError> {
    DecodeStruct(j, UsedImageFields)
  }

  /** `ThreadTriggered`: `#[serde(rename_all = "camelCase")]` with no `default`, so both keys are required. */
  function ThreadTriggeredFields(m: Members): Result<ThreadTriggered, DecodeError> {
    var name :- RequiredField(m, "name", DecodeString);
    var queue :- RequiredField(m, "queue", DecodeString);
    Success(ThreadTriggered(name, queue))
  }

  function DecodeThreadTriggered(j: Json): Result<ThreadTriggered, DecodeError> {
    DecodeStruct(j, ThreadTriggeredFields)
  }

  /** `LegacyInfo`: `#[serde(rename_all = "camelCase", default)]`. */
  function LegacyInfoFields(m: Members): Result<LegacyInfo, DecodeError> {
    var threadTriggered :- DefaultField(m, "threadTriggered", DecodeThreadTriggered, DefaultThreadTriggered);
    Success(LegacyInfo(threadTriggered))
  }

  function DecodeLegacyInfo(j: Json): Result<LegacyInfo, DecodeError> {
    DecodeStruct(j, LegacyInfoFields)
  }

  /** `Header`: `#[serde(default)]` with the field names as keys, except `bundleID`. */
  function HeaderFields(m: Members): Result<Header, DecodeError> {
    var appName :- DefaultField(m, "app_name", DecodeString, "");
    var timestamp :- DefaultField(m, "timestamp", DecodeString, "");
    var appVersion :- DefaultField(m, "app_version", DecodeString, "");
    var sliceUuid :- DefaultField(m, "slice_uuid", DecodeString, "");
    var buildVersion :- DefaultField(m, "build_version", DecodeString, "");
    var platform :- DefaultField(m, "platform", DecodeI64, 0);
    var bundleId :- DefaultField(m, "bundleID", DecodeString, "");
    var shareWithAppDevs :- DefaultField(m, "share_with_app_devs", DecodeI64, 0);
    var isFirstParty :- DefaultField(m, "is_first_party", DecodeI64, 0);
    var bugType :- DefaultField(m, "bug_type", DecodeString, "");
    var osVersion :- DefaultField(m, "os_version", DecodeString, "");
    var rootsInstalled :- DefaultField(m, "roots_installed", DecodeI64, 0);
    var name :- DefaultField(m, "name", DecodeString, "");
    var incidentId :- DefaultField(m, "incident_id", DecodeString, "");
    Success(Header(appName, timestamp, appVersion, sliceUuid, buildVersion, platform, bundleId,
                   shareWithAppDevs, isFirstParty, bugType, osVersion, rootsInstalled, name, incidentId))
  }

  function DecodeHeader(j: Json): Result<Header, DecodeError> {
    DecodeStruct(j, HeaderFields)
  }

  /** `Body`: `#[serde(rename_all = "camelCase", default)]`, restricted to the fields kept here. */
  function BodyFields(m: Members): Result<Body, DecodeError> {
    var faultingThread :- DefaultField(m, "faultingThread", OptionalI64, None);
    var threads :- DefaultField(m, "threads", j => DecodeVec(j, DecodeThread), []);
    var usedImages :- DefaultField(m, "usedImages", j => DecodeVec(j, DecodeUsedImage), []);
    var legacyInfo :- DefaultField(m, "legacyInfo", DecodeLegacyInfo, DefaultLegacyInfo);
    Success(Body(faultingThread, threads, usedImages, legacyInfo))
  }

  function DecodeBody(j: Json): Result<Body, DecodeError> {
    DecodeStruct(j, BodyFields)
  }

  // ------------------------------------------------------------ default filling

  /** The value a field takes once the keys `ks` are removed: the default if its key was removed. */
  function Kept<T>(ks: set<string>, key: string, default: T, value: T): T {
    if key in ks then default else value
  }

  /** Every record but `ThreadTriggered` decodes from an empty object to its default value. */
  lemma EmptyObjectsDecodeToDefaults()
    ensures DecodeFrame(Object(map[])) == Success(DefaultFrame)
    ensures DecodeThread(Object(map[])) == Success(DefaultThread)
    ensures DecodeUsedImage(Object(map[])) == Success(DefaultUsedImage)
    ensures DecodeLegacyInfo(Object(map[])) == Success(DefaultLegacyInfo)
    ensures DecodeHeader(Object(map[])) == Success(DefaultHeader)
    ensures DecodeBody(Object(map[])) == Success(DefaultBody)
    ensures DecodeThreadTriggered(Object(map[])) == Failure(MissingField("name"))
  {
  }

  /** Dropping keys from a frame that decodes leaves a frame that decodes, with the dropped fields at their defaults. */
  lemma FrameDefaultFill(m: Members, ks: set<string>)
    requires FrameFields(m).Success?
    ensures var f := FrameFields(m).value;
      FrameFields(m - ks) == Success(Frame(
        Kept(ks, "imageOffset", 0, f.imageOffset),
        Kept(ks, "symbol", None, f.symbol),
        Kept(ks, "symbolLocation", None, f.symbolLocation),
        Kept(ks, "imageIndex", 0, f.imageIndex)))
  {
  }

  /** Dropping keys from a thread that decodes leaves a thread that decodes, with the dropped fields at their defaults. */
  lemma ThreadDefaultFill(m: Members, ks: set<string>)
    requires ThreadFields(m).Success?
    ensures var t := ThreadFields(m).value;
      ThreadFields(m - ks) == Success(Thread(
        Kept(ks, "id", 0, t.id),
        Kept(ks, "triggered", None, t.triggered),
        Kept(ks, "name", None, t.name),
        Kept(ks, "queue", None, t.queue),
        Kept(ks, "frames", [], t.frames)))
  {
  }

  /** Dropping keys from an image that decodes leaves an image that decodes, with the dropped fields at their defaults. */
  lemma UsedImageDefaultFill(m: Members, ks: set<string>)
    requires UsedImageFields(m).Success?
    ensures var u := UsedImageFields(m).value;
      UsedImageFields(m - ks) == Success(UsedImage(
        Kept(ks, "source", "", u.source),
        Kept(ks, "arch", None, u.arch),
        Kept(ks, "base", 0, u.base),
        Kept(ks, "CFBundleShortVersionString", None, u.cfBundleShortVersionString),
        Kept(ks, "CFBundleIdentifier", None, u.cfBundleIdentifier),
        Kept(ks, "size", 0, u.size),
        Kept(ks, "uuid", "", u.uuid),
        Kept(ks, "path", None, u.path),
        Kept(ks, "name", None, u.name),
        Kept(ks, "CFBundleVersion", None, u.cfBundleVersion)))
  {
    var u := UsedImageFields(m).value;
    var m' := m - ks;
    assert DefaultField(m, "source", DecodeString, "") == Success(u.source);
    assert DefaultField(m, "arch", OptionalString, None) == Success(u.arch);
    assert DefaultField(m, "base", DecodeI64, 0) == Success(u.base);
    assert DefaultField(m, "CFBundleShortVersionString", OptionalString, None) == Success(u.cfBundleShortVersionString);
    assert DefaultField(m, "CFBundleIdentifier", OptionalString, None) == Success(u.cfBundleIdentifier);
    assert DefaultField(m, "size", DecodeI64, 0) == Success(u.size);
    assert DefaultField(m, "uuid", DecodeString, "") == Success(u.uuid);
    assert DefaultField(m, "path", OptionalString, None) == Success(u.path);
    assert DefaultField(m, "name", OptionalString, None) == Success(u.name);
    assert DefaultField(m, "CFBundleVersion", OptionalString, None) == Success(u.cfBundleVersion);
    DefaultFieldWithout(m, ks, "source", DecodeString, "");
    DefaultFieldWithout(m, ks, "arch", OptionalString, None);
    DefaultFieldWithout(m, ks, "base", DecodeI64, 0);
    DefaultFieldWithout(m, ks, "CFBundleShortVersionString", OptionalString, None);
    DefaultFieldWithout(m, ks, "CFBundleIdentifier", OptionalString, None);
    DefaultFieldWithout(m, ks, "size", DecodeI64, 0);
    DefaultFieldWithout(m, ks, "uuid", DecodeString, "");
    DefaultFieldWithout(m, ks, "path", OptionalString, None);
    DefaultFieldWithout(m, ks, "name", OptionalString, None);
    DefaultFieldWithout(m, ks, "CFBundleVersion", OptionalString, None);
  }

  /** A header decodes to `h` exactly when each of its fields reads as `h`'s. */
  lemma HeaderFieldsByField(m: Members, h: Header)
    ensures HeaderFields(m) == Success(h) <==>
             DefaultField(m, "app_name", DecodeString, "") == Success(h.appName) &&
             DefaultField(m, "timestamp", DecodeString, "") == Success(h.timestamp) &&
             DefaultField(m, "app_version", DecodeString, "") == Success(h.appVersion) &&
             DefaultField(m, "slice_uuid", DecodeString, "") == Success(h.sliceUuid) &&
             DefaultField(m, "build_version", DecodeString, "") == Success(h.buildVersion) &&
             DefaultField(m, "platform", DecodeI64, 0) == Success(h.platform) &&
             DefaultField(m, "bundleID", DecodeString, "") == Success(h.bundleId) &&
             DefaultField(m, "share_with_app_devs", DecodeI64, 0) == Success(h.shareWithAppDevs) &&
             DefaultField(m, "is_first_party", DecodeI64, 0) == Success(h.isFirstParty) &&
             DefaultField(m, "bug_type", DecodeString, "") == Success(h.bugType) &&
             DefaultField(m, "os_version", DecodeString, "") == Success(h.osVersion) &&
             DefaultField(m, "roots_installed", DecodeI64, 0) == Success(h.rootsInstalled) &&
             DefaultField(m, "name", DecodeString, "") == Success(h.name) &&
             DefaultField(m, "incident_id", DecodeString, "") == Success(h.incidentId)
  {
  }

  /** Dropping keys from a header that decodes leaves a header that decodes, with the dropped fields at their defaults. */
  lemma HeaderDefaultFill(m: Members, ks: set<string>)
    requires HeaderFields(m).Success?
    ensures var h := HeaderFields(m).value;
      HeaderFields(m - ks) == Success(Header(
        Kept(ks, "app_name", "", h.appName),
        Kept(ks, "timestamp", "", h.timestamp),
        Kept(ks, "app_version", "", h.appVersion),
        Kept(ks, "slice_uuid", "", h.sliceUuid),
        Kept(ks, "build_version", "", h.buildVersion),
        Kept(ks, "platform", 0, h.platform),
        Kept(ks, "bundleID", "", h.bundleId),
        Kept(ks, "share_with_app_devs", 0, h.shareWithAppDevs),
        Kept(ks, "is_first_party", 0, h.isFirstParty),
        Kept(ks, "bug_type", "", h.bugType),
        Kept(ks, "os_version", "", h.osVersion),
        Kept(ks, "roots_installed", 0, h.rootsInstalled),
        Kept(ks, "name", "", h.name),
        Kept(ks, "incident_id", "", h.incidentId)))
  {
    var h := HeaderFields(m).value;
    HeaderFieldsByField(m, h);
    DefaultFieldWithout(m, ks, "app_name", DecodeString, "");
    DefaultFieldWithout(m, ks, "timestamp", DecodeString, "");
    DefaultFieldWithout(m, ks, "app_version", DecodeString, "");
    DefaultFieldWithout(m, ks, "slice_uuid", DecodeString, "");
    DefaultFieldWithout(m, ks, "build_version", DecodeString, "");
    DefaultFieldWithout(m, ks, "platform", DecodeI64, 0);
    DefaultFieldWithout(m, ks, "bundleID", DecodeString, "");
    DefaultFieldWithout(m, ks, "share_with_app_devs", DecodeI64, 0);
    DefaultFieldWithout(m, ks, "is_first_party", DecodeI64, 0);
    DefaultFieldWithout(m, ks, "bug_type", DecodeString, "");
    DefaultFieldWithout(m, ks, "os_version", DecodeString, "");
    DefaultFieldWithout(m, ks, "roots_installed", DecodeI64, 0);
    DefaultFieldWithout(m, ks, "name", DecodeString, "");
    DefaultFieldWithout(m, ks, "incident_id", DecodeString, "");
    HeaderFieldsByField(m - ks, Header(
      Kept(ks, "app_name", "", h.appName),
      Kept(ks, "timestamp", "", h.timestamp),
      Kept(ks, "app_version", "", h.appVersion),
      Kept(ks, "slice_uuid", "", h.sliceUuid),
      Kept(ks, "build_version", "", h.buildVersion),
      Kept(ks, "platform", 0, h.platform),
      Kept(ks, "bundleID", "", h.bundleId),
      Kept(ks, "share_with_app_devs", 0, h.shareWithAppDevs),
      Kept(ks, "is_first_party", 0, h.isFirstParty),
      Kept(ks, "bug_type", "", h.bugType),
      Kept(ks, "os_version", "", h.osVersion),
      Kept(ks, "roots_installed", 0, h.rootsInstalled),
      Kept(ks, "name", "", h.name),
      Kept(ks, "incident_id", "", h.incidentId)));
  }

  /** Dropping keys from a body that decodes leaves a body that decodes, with the dropped fields at their defaults. */
  lemma BodyDefaultFill(m: Members, ks: set<string>)
    requires BodyFields(m).Success?
    ensures var b := BodyFields(m).value;
      BodyFields(m - ks) == Success(Body(
        Kept(ks, "faultingThread", None, b.faultingThread),
        Kept(ks, "threads", [], b.threads),
        Kept(ks, "usedImages", [], b.usedImages),
        Kept(ks, "legacyInfo", DefaultLegacyInfo, b.legacyInfo)))
  {
  }

  /** Unlike every other record, `ThreadTriggered` fails when a key is missing, even inside a defaulted `LegacyInfo`. */
  lemma ThreadTriggeredNeedsBothKeys(m: Members)
    ensures "name" !in m ==> ThreadTriggeredFields(m) == Failure(MissingField("name"))
    ensures "name" in m && DecodeString(m["name"]).Success? && "queue" !in m
            ==> ThreadTriggeredFields(m) == Failure(MissingField("queue"))
    ensures ThreadTriggeredFields(m).Failure? ==> LegacyInfoFields(map["threadTriggered" := Object(m)]).Failure?
  {
  }

  // ------------------------------------------------------------ parsing

  /** Why `IPSFile::parse` failed. */
  datatype ParseError =
    | NoHeader
    | HeaderFailed(cause: DecodeError)
    | NoBody
    | BodyFailed(cause: DecodeError)

  function Message(e: ParseError): string {
    match e
    case NoHeader => "No header found"
    case HeaderFailed(cause) => "Failed to parse header: " + Describe(cause)
    case NoBody => "No body found"
    case BodyFailed(cause) => "Failed to parse body: " + Describe(cause)
  }

  /**
   * `serde_json::from_slice`: the text is read into a JSON value by
   * `parseJson`, whose rejections are syntax errors, and the value is then
   * decoded into a record.
   */
  function FromSlice<T>(bytes: seq<byte>, parseJson: seq<byte> -> Result<Json, string>,
                        decode: Json -> Result<T, DecodeError>): Result<T, DecodeError>
  {
    match parseJson(bytes)
    case Failure(message) => Failure(Syntax(message))
    case Success(j) => decode(j)
  }

  /**
   * `bytes.splitn(2, |&b| b == b'\n')`: the bytes before the first newline,
   * then, if there is a newline, everything after it.
   */
  function SplitAtFirstNewline(bytes: seq<byte>): (pieces: seq<seq<byte>>)
    ensures 1 <= |pieces| <= 2
    ensures NEWLINE !in pieces[0]
    ensures |pieces| == 1 <==> NEWLINE !in bytes
    ensures |pieces| == 1 ==> pieces[0] == bytes
    ensures |pieces| == 2 ==> bytes == pieces[0] + [NEWLINE] + pieces[1]
  {
    ElementOccurs(bytes, NEWLINE);
    match SplitOnce(bytes, [NEWLINE])
    case None => [bytes]
    case Some((head, rest)) =>
      NoElementBeforeFirst(bytes, NEWLINE, |head|);
      [head, rest]
  }

  /**
   * `IPSFile::parse`: the header line is decoded first, and only then is the
   * rest of the input looked at as the body.
   */
  function Parse(bytes: seq<byte>, parseJson: seq<byte> -> Result<Json, string>): (r: Result<IpsFile, ParseError>)
    ensures r != Failure(NoHeader)
    ensures r.Success? ==> NEWLINE in bytes
    ensures r.Failure? && r.error.HeaderFailed? ==> FromSlice(SplitAtFirstNewline(bytes)[0], parseJson, DecodeHeader).Failure?
  {
    var pieces := SplitAtFirstNewline(bytes);
    if |pieces| == 0 then Failure(NoHeader)
    else
      var header :- FromSlice(pieces[0], parseJson, DecodeHeader).MapFailure(e => HeaderFailed(e));
      var bodyBytes :- if |pieces| >= 2 then Success(pieces[1]) else Failure(NoBody);
      var body :- FromSlice(bodyBytes, parseJson, DecodeBody).MapFailure(e => BodyFailed(e));
      Success(IpsFile(header, body))
  }

  /** What parsing the two halves gives, header first. */
  function ParseHalves(header: seq<byte>, body: Option<seq<byte>>, parseJson: seq<byte> -> Result<Json, string>): Result<IpsFile, ParseError> {
    match FromSlice(header, parseJson, DecodeHeader)
    case Failure(e) => Failure(HeaderFailed(e))
    case Success(h) =>
      match body
      case None => Failure(NoBody)
      case Some(b) =>
        match FromSlice(b, parseJson, DecodeBody)
        case Failure(e) => Failure(BodyFailed(e))
        case Success(v) => Success(IpsFile(h, v))
  }

  /**
   * The input is cut at its first newline: whatever follows, including
   * further newlines, is the body, and the result is exactly the two halves
   * decoded, the header first.
   */
  lemma ParseSplitsAtFirstNewline(header: seq<byte>, body: seq<byte>, parseJson: seq<byte> -> Result<Json, string>)
    requires NEWLINE !in header
    ensures Parse(header + [NEWLINE] + body, parseJson) == ParseHalves(header, Some(body), parseJson)
  {
    var bytes := header + [NEWLINE] + body;
    FirstOccurrenceOfElement(header, NEWLINE, body);
    SplitOnceAt(bytes, [NEWLINE], |header|);
    assert bytes[..|header|] == header;
    assert bytes[|header| + 1..] == body;
  }

  /** Without a newline the header is still decoded first; if it decodes the error is `No body found`. */
  lemma ParseWithoutNewline(bytes: seq<byte>, parseJson: seq<byte> -> Result<Json, string>)
    requires NEWLINE !in bytes
    ensures Parse(bytes, parseJson) == ParseHalves(bytes, None, parseJson)
  {
  }

  /** A header that does not decode decides the result: the body bytes are never examined. */
  lemma HeaderErrorComesFirst(header: seq<byte>, body1: seq<byte>, body2: seq<byte>,
                              parseJson: seq<byte> -> Result<Json, string>)
    requires NEWLINE !in header
    requires FromSlice(header, parseJson, DecodeHeader).Failure?
    ensures Parse(header + [NEWLINE] + body1, parseJson) == Parse(header + [NEWLINE] + body2, parseJson)
    ensures Parse(header + [NEWLINE] + body1, parseJson)
            == Failure(HeaderFailed(FromSlice(header, parseJson, DecodeHeader).error))
    ensures Parse(header, parseJson) == Failure(HeaderFailed(FromSlice(header, parseJson, DecodeHeader).error))
  {
    ParseSplitsAtFirstNewline(header, body1, parseJson);
    ParseSplitsAtFirstNewline(header, body2, parseJson);
  }

  // ------------------------------------------------------------ the faulting thread

  /**
   * The 64 bits of an `i64` read as unsigned: `i as u64`, which is also
   * `i as usize` on a 64-bit target. Negative values wrap to the top of the range.
   */
  function AsU64(i: I64): (r: nat)
    ensures r < 0x1_0000_0000_0000_0000
    ensures (r - i) % 0x1_0000_0000_0000_0000 == 0
  {
    if i < 0 then i + 0x1_0000_0000_0000_0000 else i
  }

  /** `IPSFile::faulting_thread`: the thread the body's `faultingThread` index names, if it names one. */
  function FaultingThread(file: IpsFile): (r: Option<Thread>)
    ensures file.body.faultingThread.None? ==> r.None?
    ensures file.body.faultingThread.Some? && 0 <= file.body.faultingThread.value < |file.body.threads|
            ==> r == Some(file.body.threads[file.body.faultingThread.value])
    ensures file.body.faultingThread.Some? && file.body.faultingThread.value >= |file.body.threads| ==> r.None?
    ensures file.body.faultingThread.Some? && file.body.faultingThread.value < 0 && |file.body.threads| <= ISIZE_MAX
            ==> r.None?
  {
    match file.body.faultingThread
    case None => None
    case Some(i) =>
      var index := AsU64(i);
      if index < |file.body.threads| then Some(file.body.threads[index]) else None
  }
}

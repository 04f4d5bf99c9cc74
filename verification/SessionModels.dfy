/** Session manifests (session/models.py): their JSON object form and the checks a reader makes. */
module SessionModels {
  import opened Prelude

  const FORMAT_NAME := "tuneros.raw_can_session"
  const VERSION_PLAIN: int := 1
  const VERSION_CALIBRATION: int := 2
  const VEHICLE_PROFILE := "bmw-e90-335i-n54-2010-manual"
  const CAN_NETWORK := "TunerOS synthetic Classic CAN"

  datatype Status = Recording | Complete | Incomplete

  datatype Manifest = Manifest(
    formatName: string,
    formatVersion: int,
    sessionId: string,
    createdAt: string,
    name: Option<string>,
    scenario: Option<string>,
    vehicleProfileId: string,
    canNetwork: string,
    dbcName: string,
    dbcSha: string,
    framesSha: Option<string>,
    status: Status,
    failureReason: Option<string>,
    frameCount: int,
    first: Option<int>,
    last: Option<int>,
    duration: int,
    calibrationId: Option<string>,
    calibrationRevision: Option<int>)

  /** The JSON values a manifest can hold; anything else (numbers with a fraction, booleans, lists,
      objects) is `Other`. */
  datatype Json = Null | Int(n: int) | Text(s: string) | Other

  /** The names of the manifest's fields, and any other name. */
  datatype Field =
    | FormatName | FormatVersion | SessionId | CreatedAt | Name | Scenario | VehicleProfileId | CanNetwork
    | DbcName | DbcSha | FramesSha | StatusField | FailureReason | FrameCount | First | Last | Duration
    | CalibrationId | CalibrationRevision
    | Unknown(text: string)

  type Object = map<Field, Json>

  datatype SessionError = BadFormat | BadVersion | BadField(field: Field) | Inconsistent

  function Fields(version: int): (s: set<Field>)
    ensures forall k :: k in s <==>
            !k.Unknown? && (version == VERSION_PLAIN ==> !k.CalibrationId? && !k.CalibrationRevision?)
  {
    {FormatName, FormatVersion, SessionId, CreatedAt, Name, Scenario, VehicleProfileId, CanNetwork, DbcName, DbcSha,
     FramesSha, StatusField, FailureReason, FrameCount, First, Last, Duration}
    + if version == VERSION_PLAIN then {} else {CalibrationId, CalibrationRevision}
  }

  // ---- to_dict ----

  function TextOrNull(o: Option<string>): Json {
    if o.None? then Null else Text(o.value)
  }

  function IntOrNull(o: Option<int>): Json {
    if o.None? then Null else Int(o.value)
  }

  function StatusText(s: Status): string {
    match s
    case Recording => "recording"
    case Complete => "complete"
    case Incomplete => "incomplete"
  }

  function FieldValue(m: Manifest, k: Field): Json {
    match k
    case FormatName => Text(m.formatName)
    case FormatVersion => Int(m.formatVersion)
    case SessionId => Text(m.sessionId)
    case CreatedAt => Text(m.createdAt)
    case Name => TextOrNull(m.name)
    case Scenario => TextOrNull(m.scenario)
    case VehicleProfileId => Text(m.vehicleProfileId)
    case CanNetwork => Text(m.canNetwork)
    case DbcName => Text(m.dbcName)
    case DbcSha => Text(m.dbcSha)
    case FramesSha => TextOrNull(m.framesSha)
    case StatusField => Text(StatusText(m.status))
    case FailureReason => TextOrNull(m.failureReason)
    case FrameCount => Int(m.frameCount)
    case First => IntOrNull(m.first)
    case Last => IntOrNull(m.last)
    case Duration => Int(m.duration)
    case CalibrationId => TextOrNull(m.calibrationId)
    case CalibrationRevision => IntOrNull(m.calibrationRevision)
    case Unknown(_) => Other
  }

  function ToDict(m: Manifest): (v: Object)
    ensures v.Keys == Fields(m.formatVersion)
    ensures forall k <- v :: v[k] == FieldValue(m, k)
  {
    map k | k in Fields(m.formatVersion) :: FieldValue(m, k)
  }

  // ---- from_dict ----

  predicate IsHex(c: char) {
    '0' <= c <= '9' || 'a' <= c <= 'f'
  }

  predicate IsHash(s: string) {
    |s| == 64 && forall i :: 0 <= i < |s| ==> IsHex(s[i])
  }

  /** The form `str(UUID(s))` gives back. */
  predicate CanonicalUuid(s: string) {
    |s| == 36 && forall i :: 0 <= i < |s| ==>
      if i == 8 || i == 13 || i == 18 || i == 23 then s[i] == '-' else IsHex(s[i])
  }

  predicate GoodText(j: Json) {
    j.Text? && j.s != ""
  }

  predicate GoodOptionalText(j: Json) {
    j.Text? || j.Null?
  }

  predicate GoodCount(j: Json) {
    j.Int? && j.n >= 0
  }

  predicate GoodOptionalCount(j: Json) {
    j.Null? || GoodCount(j)
  }

  predicate GoodHash(j: Json) {
    j.Text? && IsHash(j.s)
  }

  predicate GoodStatus(j: Json) {
    j.Text? && (j.s == "recording" || j.s == "complete" || j.s == "incomplete")
  }

  /** The type check of one field. */
  predicate GoodField(k: Field, j: Json) {
    match k
    case FormatName => j == Text(FORMAT_NAME)
    case FormatVersion => j.Int?
    case SessionId => GoodText(j)
    case CreatedAt => GoodText(j)
    case Name => GoodOptionalText(j)
    case Scenario => GoodOptionalText(j)
    case VehicleProfileId => GoodText(j)
    case CanNetwork => GoodText(j)
    case DbcName => GoodText(j)
    case DbcSha => GoodHash(j)
    case FramesSha => j.Null? || GoodHash(j)
    case StatusField => GoodStatus(j)
    case FailureReason => GoodOptionalText(j)
    case FrameCount => GoodCount(j)
    case First => GoodOptionalCount(j)
    case Last => GoodOptionalCount(j)
    case Duration => GoodCount(j)
    case CalibrationId => GoodText(j)
    case CalibrationRevision => GoodCount(j) && j.n > 0
    case Unknown(_) => false
  }

  function TextOf(j: Json): Option<string> {
    if j.Text? then Some(j.s) else None
  }

  function IntOf(j: Json): Option<int> {
    if j.Int? then Some(j.n) else None
  }

  function StringAt(v: Object, k: Field): string {
    if k in v && v[k].Text? then v[k].s else ""
  }

  function IntAt(v: Object, k: Field): int {
    if k in v && v[k].Int? then v[k].n else 0
  }

  function OptionalTextAt(v: Object, k: Field): Option<string> {
    if k in v then TextOf(v[k]) else None
  }

  function OptionalIntAt(v: Object, k: Field): Option<int> {
    if k in v then IntOf(v[k]) else None
  }

  function StatusAt(v: Object): Status {
    var s := StringAt(v, StatusField);
    if s == "recording" then Recording else if s == "complete" then Complete else Incomplete
  }

  /** The manifest whose fields are those of the object. */
  function Assembled(v: Object): Manifest {
    Manifest(
      StringAt(v, FormatName), IntAt(v, FormatVersion), StringAt(v, SessionId), StringAt(v, CreatedAt),
      OptionalTextAt(v, Name), OptionalTextAt(v, Scenario), StringAt(v, VehicleProfileId), StringAt(v, CanNetwork),
      StringAt(v, DbcName), StringAt(v, DbcSha), OptionalTextAt(v, FramesSha), StatusAt(v),
      OptionalTextAt(v, FailureReason), IntAt(v, FrameCount), OptionalIntAt(v, First), OptionalIntAt(v, Last),
      IntAt(v, Duration), OptionalTextAt(v, CalibrationId), OptionalIntAt(v, CalibrationRevision))
  }

  /** `_validate_consistency`. */
  predicate Consistent(m: Manifest) {
    && CanonicalUuid(m.sessionId)
    && (if m.frameCount == 0 then m.first.None? && m.last.None? && m.duration == 0
        else m.first.Some? && m.last.Some? && m.first.value <= m.last.value
             && m.duration == m.last.value - m.first.value)
    && (match m.status
        case Recording => m.framesSha.None? && m.failureReason.None?
        case Complete => m.framesSha.Some? && m.failureReason.None?
        case Incomplete => m.framesSha.Some? && m.failureReason.Some? && m.failureReason.value != "")
    && (if m.formatVersion == VERSION_PLAIN then m.calibrationId.None? && m.calibrationRevision.None?
        else m.calibrationId.Some? && m.calibrationId.value != "" && m.calibrationRevision.Some?)
  }

  predicate SupportedVersion(v: Object) {
    FormatVersion in v && (v[FormatVersion] == Int(VERSION_PLAIN) || v[FormatVersion] == Int(VERSION_CALIBRATION))
  }

  predicate GoodFields(v: Object) {
    forall k <- v :: GoodField(k, v[k])
  }

  /** `from_dict` on a JSON object. */
  function FromDict(v: Object): Result<Manifest, SessionError> {
    if !SupportedVersion(v) then Err(BadVersion)
    else if v.Keys != Fields(v[FormatVersion].n) then Err(BadFormat)
    else if !GoodFields(v) then Err(BadFormat)
    else if !Consistent(Assembled(v)) then Err(Inconsistent)
    else Ok(Assembled(v))
  }

  // ---- what it means ----

  /** What each field is written as: what the session is, */
  lemma {:induction false} WrittenOrigin(m: Manifest)
    ensures FieldValue(m, FormatName) == Text(m.formatName) && FieldValue(m, FormatVersion) == Int(m.formatVersion)
    ensures FieldValue(m, SessionId) == Text(m.sessionId) && FieldValue(m, CreatedAt) == Text(m.createdAt)
    ensures FieldValue(m, Name) == if m.name.Some? then Text(m.name.value) else Null
    ensures FieldValue(m, Scenario) == if m.scenario.Some? then Text(m.scenario.value) else Null
  {
  }

  /** what it was recorded with, */
  lemma {:induction false} WrittenSetup(m: Manifest)
    ensures FieldValue(m, VehicleProfileId) == Text(m.vehicleProfileId)
    ensures FieldValue(m, CanNetwork) == Text(m.canNetwork)
    ensures FieldValue(m, DbcName) == Text(m.dbcName) && FieldValue(m, DbcSha) == Text(m.dbcSha)
    ensures FieldValue(m, CalibrationId) == if m.calibrationId.Some? then Text(m.calibrationId.value) else Null
    ensures FieldValue(m, CalibrationRevision) ==
            if m.calibrationRevision.Some? then Int(m.calibrationRevision.value) else Null
  {
  }

  /** what it holds, */
  lemma {:induction false} WrittenFrames(m: Manifest)
    ensures FieldValue(m, FrameCount) == Int(m.frameCount) && FieldValue(m, Duration) == Int(m.duration)
    ensures FieldValue(m, First) == if m.first.Some? then Int(m.first.value) else Null
    ensures FieldValue(m, Last) == if m.last.Some? then Int(m.last.value) else Null
    ensures FieldValue(m, FramesSha) == if m.framesSha.Some? then Text(m.framesSha.value) else Null
  {
  }

  /** and how it ended. */
  lemma {:induction false} WrittenStatus(m: Manifest)
    ensures m.status == Recording ==> FieldValue(m, StatusField) == Text("recording")
    ensures m.status == Complete ==> FieldValue(m, StatusField) == Text("complete")
    ensures m.status == Incomplete ==> FieldValue(m, StatusField) == Text("incomplete")
    ensures FieldValue(m, FailureReason) == if m.failureReason.Some? then Text(m.failureReason.value) else Null
  {
  }

  /** The calibration's two fields are written in version 2 only, all others always, and no unknown one. */
  lemma {:induction false} WrittenNames(m: Manifest, k: Field)
    ensures k in ToDict(m) <==>
            !k.Unknown? && (k in {CalibrationId, CalibrationRevision} ==> m.formatVersion != 1)
  {
    hide FieldValue;
  }

  /** A hash is 64 lower-case hexadecimal digits. */
  lemma {:induction false} HashExactly(s: string)
    ensures IsHash(s) <==> |s| == 64 && forall i :: 0 <= i < |s| ==> s[i] in "0123456789abcdef"
  {
    forall c: char
      ensures IsHex(c) <==> c in "0123456789abcdef"
    {
      HexDigits(c);
    }
  }

  lemma {:induction false} HexDigits(c: char)
    ensures IsHex(c) <==> c in "0123456789abcdef"
  {
    var digits := "0123456789abcdef";
    assert forall i :: 0 <= i < 10 ==> digits[i] as int == '0' as int + i;
    assert forall i :: 10 <= i < 16 ==> digits[i] as int == 'a' as int + i - 10;
    if '0' <= c <= '9' {
      assert digits[c as int - '0' as int] == c;
    } else if 'a' <= c <= 'f' {
      assert digits[c as int - 'a' as int + 10] == c;
    }
  }

  predicate AllHex(s: string) {
    forall i :: 0 <= i < |s| ==> IsHex(s[i])
  }

  /** A canonical identifier is five groups of 8, 4, 4, 4 and 12 hexadecimal digits with dashes between them. */
  lemma {:induction false} UuidExactly(s: string)
    ensures CanonicalUuid(s) <==>
            && |s| == 36 && s[8] == '-' && s[13] == '-' && s[18] == '-' && s[23] == '-'
            && AllHex(s[..8]) && AllHex(s[9..13]) && AllHex(s[14..18]) && AllHex(s[19..23]) && AllHex(s[24..])
  {
    hide IsHex;
    if |s| == 36 && s[8] == '-' && s[13] == '-' && s[18] == '-' && s[23] == '-'
       && AllHex(s[..8]) && AllHex(s[9..13]) && AllHex(s[14..18]) && AllHex(s[19..23]) && AllHex(s[24..]) {
      forall i | 0 <= i < |s| && i != 8 && i != 13 && i != 18 && i != 23
        ensures IsHex(s[i])
      {
        if i < 8 {
          assert s[i] == s[..8][i];
        } else if i < 13 {
          assert s[i] == s[9..13][i - 9];
        } else if i < 18 {
          assert s[i] == s[14..18][i - 14];
        } else if i < 23 {
          assert s[i] == s[19..23][i - 19];
        } else {
          assert s[i] == s[24..][i - 24];
        }
      }
    }
  }

  /** The manifests that are accepted: of this format, with names and hashes where they belong, and consistent:
      times exactly when there are frames, in order, with their difference as duration; a hash once the
      session is over; a reason exactly when it failed; a calibration exactly in version 2. */
  lemma {:induction false} ReadableExactly(m: Manifest)
    ensures Readable(m) <==>
            && m.formatName == "tuneros.raw_can_session" && m.formatVersion in {1, 2}
            && CanonicalUuid(m.sessionId) && m.createdAt != "" && m.vehicleProfileId != "" && m.canNetwork != ""
            && m.dbcName != "" && IsHash(m.dbcSha) && (m.framesSha.Some? ==> IsHash(m.framesSha.value))
            && (m.frameCount == 0 || (m.frameCount > 0 && m.first.Some? && m.last.Some?))
            && (m.frameCount == 0 ==> m.first.None? && m.last.None? && m.duration == 0)
            && (m.frameCount > 0 ==>
                  0 <= m.first.value <= m.last.value && m.duration == m.last.value - m.first.value)
            && (m.framesSha.Some? <==> m.status != Recording)
            && (m.failureReason.Some? <==> m.status == Incomplete)
            && (m.status == Incomplete ==> m.failureReason.value != "")
            && (m.calibrationId.Some? <==> m.formatVersion == 2)
            && (m.calibrationRevision.Some? <==> m.formatVersion == 2)
            && (m.formatVersion == 2 ==> m.calibrationId.value != "" && m.calibrationRevision.value > 0)
  {
    hide CanonicalUuid, IsHash;
  }

  // ---- round trips ----

  /** What makes a manifest readable again, said about the manifest itself. */
  predicate Readable(m: Manifest) {
    && m.formatName == FORMAT_NAME
    && (m.formatVersion == VERSION_PLAIN || m.formatVersion == VERSION_CALIBRATION)
    && m.createdAt != "" && m.vehicleProfileId != "" && m.canNetwork != "" && m.dbcName != ""
    && IsHash(m.dbcSha) && (m.framesSha.Some? ==> IsHash(m.framesSha.value))
    && m.frameCount >= 0
    && (m.first.Some? ==> m.first.value >= 0) && (m.last.Some? ==> m.last.value >= 0)
    && (m.calibrationRevision.Some? ==> m.calibrationRevision.value > 0)
    && Consistent(m)
  }

  lemma {:induction false} StatusTexts()
    ensures StatusText(Recording) != StatusText(Complete) && StatusText(Complete) != StatusText(Incomplete)
    ensures StatusText(Recording) != StatusText(Incomplete)
  {
    assert StatusText(Recording)[0] != StatusText(Complete)[0];
    assert StatusText(Complete)[0] != StatusText(Incomplete)[0];
    assert StatusText(Recording)[0] != StatusText(Incomplete)[0];
  }

  lemma {:induction false} DictHolds(m: Manifest, k: Field)
    requires !k.Unknown? && (m.formatVersion == VERSION_PLAIN ==> !k.CalibrationId? && !k.CalibrationRevision?)
    ensures k in ToDict(m) && ToDict(m)[k] == FieldValue(m, k)
  {
    hide FieldValue;
  }

  lemma {:induction false} StatusReads(m: Manifest)
    ensures StatusAt(ToDict(m)) == m.status
  {
    hide ToDict, Fields;
    StatusTexts();
    DictHolds(m, StatusField);
  }

  lemma {:induction false} TextReads(m: Manifest, k: Field, text: string)
    requires !k.Unknown? && !k.CalibrationId? && !k.CalibrationRevision? && FieldValue(m, k) == Text(text)
    ensures StringAt(ToDict(m), k) == text
  {
    hide ToDict, Fields, FieldValue;
    DictHolds(m, k);
  }

  lemma {:induction false} SessionTextsRead(m: Manifest)
    ensures var v := ToDict(m);
            && StringAt(v, FormatName) == m.formatName && StringAt(v, SessionId) == m.sessionId
            && StringAt(v, CreatedAt) == m.createdAt
  {
    hide ToDict, Fields, StringAt;
    TextReads(m, FormatName, m.formatName);
    TextReads(m, SessionId, m.sessionId);
    TextReads(m, CreatedAt, m.createdAt);
  }

  lemma {:induction false} VehicleTextsRead(m: Manifest)
    ensures var v := ToDict(m);
            && StringAt(v, VehicleProfileId) == m.vehicleProfileId && StringAt(v, CanNetwork) == m.canNetwork
            && StringAt(v, DbcName) == m.dbcName && StringAt(v, DbcSha) == m.dbcSha
  {
    hide ToDict, Fields, StringAt;
    TextReads(m, VehicleProfileId, m.vehicleProfileId);
    TextReads(m, CanNetwork, m.canNetwork);
    TextReads(m, DbcName, m.dbcName);
    TextReads(m, DbcSha, m.dbcSha);
  }

  lemma {:induction false} OptionalTextsRead(m: Manifest)
    ensures var v := ToDict(m);
            && OptionalTextAt(v, Name) == m.name && OptionalTextAt(v, Scenario) == m.scenario
            && OptionalTextAt(v, FramesSha) == m.framesSha && OptionalTextAt(v, FailureReason) == m.failureReason
  {
    hide ToDict, Fields;
    DictHolds(m, Name);
    DictHolds(m, Scenario);
    DictHolds(m, FramesSha);
    DictHolds(m, FailureReason);
  }

  lemma {:induction false} NumbersRead(m: Manifest)
    ensures var v := ToDict(m);
            && IntAt(v, FormatVersion) == m.formatVersion && IntAt(v, FrameCount) == m.frameCount
            && IntAt(v, Duration) == m.duration
            && OptionalIntAt(v, First) == m.first && OptionalIntAt(v, Last) == m.last
  {
    hide ToDict, Fields;
    DictHolds(m, FormatVersion);
    DictHolds(m, FrameCount);
    DictHolds(m, Duration);
    DictHolds(m, First);
    DictHolds(m, Last);
  }

  lemma {:induction false} CalibrationReads(m: Manifest)
    requires m.formatVersion == VERSION_PLAIN ==> m.calibrationId.None? && m.calibrationRevision.None?
    ensures var v := ToDict(m);
            OptionalTextAt(v, CalibrationId) == m.calibrationId
            && OptionalIntAt(v, CalibrationRevision) == m.calibrationRevision
  {
    hide ToDict, Fields;
    if m.formatVersion != VERSION_PLAIN {
      DictHolds(m, CalibrationId);
      DictHolds(m, CalibrationRevision);
    }
  }

  /** Taking the object of a manifest apart gives the manifest back, when a plain manifest has no
      calibration. */
  lemma {:induction false} AssembledInvertsToDict(m: Manifest)
    requires m.formatVersion == VERSION_PLAIN ==> m.calibrationId.None? && m.calibrationRevision.None?
    ensures Assembled(ToDict(m)) == m
  {
    hide ToDict, Fields, StringAt, OptionalTextAt, IntAt, OptionalIntAt, StatusAt;
    SessionTextsRead(m);
    VehicleTextsRead(m);
    OptionalTextsRead(m);
    NumbersRead(m);
    CalibrationReads(m);
    StatusReads(m);
  }

  lemma {:induction false} ReadableField(m: Manifest, k: Field)
    requires Readable(m) && k in ToDict(m)
    ensures GoodField(k, ToDict(m)[k])
  {
    hide IsHash, CanonicalUuid, Fields;
    UuidIsNotEmpty(m.sessionId);
  }

  lemma {:induction false} ReadableFields(m: Manifest)
    requires Readable(m)
    ensures GoodFields(ToDict(m)) && SupportedVersion(ToDict(m))
  {
    hide Readable, GoodField, Fields, ToDict, FieldValue;
    forall k | k in ToDict(m)
      ensures GoodField(k, ToDict(m)[k])
    {
      ReadableField(m, k);
    }
    ReadableVersion(m);
  }

  lemma {:induction false} ReadableVersion(m: Manifest)
    requires Readable(m)
    ensures SupportedVersion(ToDict(m))
  {
    hide Consistent, IsHash, Fields, ToDict;
    DictHolds(m, FormatVersion);
  }

  lemma {:induction false} UuidIsNotEmpty(s: string)
    requires CanonicalUuid(s)
    ensures s != ""
  {
  }

  /** A manifest survives writing and reading exactly when it is readable. */
  lemma {:induction false} ManifestRoundTrip(m: Manifest)
    ensures FromDict(ToDict(m)) == Ok(m) <==> Readable(m)
  {
    hide IsHash, CanonicalUuid, GoodFields, SupportedVersion, Assembled, Fields, StatusText;
    if Readable(m) {
      ReadableFields(m);
      AssembledInvertsToDict(m);
    } else if FromDict(ToDict(m)) == Ok(m) {
      AcceptedIsReadable(ToDict(m), m);
    }
  }

  /** What is read from a written manifest is that manifest or nothing. */
  lemma {:induction false} ReadsNothingElse(m: Manifest)
    requires m.formatVersion == VERSION_PLAIN ==> m.calibrationId.None? && m.calibrationRevision.None?
    ensures FromDict(ToDict(m)).Ok? <==> Readable(m)
    ensures FromDict(ToDict(m)).Ok? ==> FromDict(ToDict(m)).value == m
  {
    hide Readable, GoodFields, SupportedVersion, Assembled, Fields, ToDict, Consistent;
    AssembledInvertsToDict(m);
    ManifestRoundTrip(m);
  }

  lemma {:induction false} AcceptedField(v: Object, k: Field)
    requires SupportedVersion(v) && v.Keys == Fields(v[FormatVersion].n) && GoodFields(v)
    ensures k in v <==>
            !k.Unknown? && (v[FormatVersion].n == VERSION_PLAIN ==> !k.CalibrationId? && !k.CalibrationRevision?)
    ensures k in v ==> GoodField(k, v[k])
  {
    hide IsHash, GoodField;
  }

  lemma {:induction false} AssembledTexts(v: Object)
    ensures var m := Assembled(v);
            && m.formatName == StringAt(v, FormatName) && m.createdAt == StringAt(v, CreatedAt)
            && m.vehicleProfileId == StringAt(v, VehicleProfileId) && m.canNetwork == StringAt(v, CanNetwork)
            && m.dbcName == StringAt(v, DbcName) && m.dbcSha == StringAt(v, DbcSha)
            && m.framesSha == OptionalTextAt(v, FramesSha)
  {
    hide StringAt, IntAt, OptionalTextAt, OptionalIntAt, StatusAt;
  }

  lemma {:induction false} AcceptedText(v: Object, k: Field)
    requires SupportedVersion(v) && v.Keys == Fields(v[FormatVersion].n) && GoodFields(v)
    requires k in [CreatedAt, VehicleProfileId, CanNetwork, DbcName]
    ensures StringAt(v, k) != ""
  {
    hide Fields, GoodFields, SupportedVersion;
    AcceptedField(v, k);
  }

  lemma {:induction false} AcceptedHashes(v: Object)
    requires SupportedVersion(v) && v.Keys == Fields(v[FormatVersion].n) && GoodFields(v)
    ensures IsHash(StringAt(v, DbcSha)) && StringAt(v, FormatName) == FORMAT_NAME
    ensures OptionalTextAt(v, FramesSha).Some? ==> IsHash(OptionalTextAt(v, FramesSha).value)
  {
    hide IsHash, Fields, GoodFields, SupportedVersion;
    AcceptedField(v, FormatName);
    AcceptedField(v, DbcSha);
    AcceptedField(v, FramesSha);
  }

  lemma {:induction false} AcceptedTexts(v: Object)
    requires SupportedVersion(v) && v.Keys == Fields(v[FormatVersion].n) && GoodFields(v)
    ensures var m := Assembled(v);
            && m.formatName == FORMAT_NAME && m.createdAt != "" && m.vehicleProfileId != "" && m.canNetwork != ""
            && m.dbcName != "" && IsHash(m.dbcSha) && (m.framesSha.Some? ==> IsHash(m.framesSha.value))
  {
    hide IsHash, Fields, GoodFields, SupportedVersion, Assembled, StringAt, OptionalTextAt;
    AssembledTexts(v);
    AcceptedText(v, CreatedAt);
    AcceptedText(v, VehicleProfileId);
    AcceptedText(v, CanNetwork);
    AcceptedText(v, DbcName);
    AcceptedHashes(v);
  }

  lemma {:induction false} AcceptedCounts(v: Object)
    requires SupportedVersion(v) && v.Keys == Fields(v[FormatVersion].n) && GoodFields(v)
    ensures var m := Assembled(v);
            m.frameCount >= 0 && (m.first.Some? ==> m.first.value >= 0) && (m.last.Some? ==> m.last.value >= 0)
  {
    hide IsHash, Fields, GoodFields, StatusAt, StringAt, OptionalTextAt, SupportedVersion;
    AcceptedField(v, FrameCount);
    AcceptedField(v, First);
    AcceptedField(v, Last);
  }

  lemma {:induction false} AcceptedVersion(v: Object)
    requires SupportedVersion(v) && v.Keys == Fields(v[FormatVersion].n) && GoodFields(v)
    ensures var m := Assembled(v);
            && (m.formatVersion == VERSION_PLAIN || m.formatVersion == VERSION_CALIBRATION)
            && (m.calibrationRevision.Some? ==> m.calibrationRevision.value > 0)
  {
    hide IsHash, Fields, GoodFields, StatusAt, StringAt, OptionalTextAt;
    AcceptedField(v, CalibrationRevision);
  }

  /** Whatever is read is readable: reading, writing and reading again changes nothing. */
  lemma {:induction false} AcceptedIsReadable(v: Object, m: Manifest)
    requires FromDict(v) == Ok(m)
    ensures Readable(m)
  {
    hide IsHash, Fields, GoodFields, Assembled, Consistent;
    AcceptedTexts(v);
    AcceptedCounts(v);
    AcceptedVersion(v);
  }

  lemma {:induction false} FieldReadsBack(v: Object, k: Field)
    requires k in v && GoodField(k, v[k])
    ensures FieldValue(Assembled(v), k) == v[k]
  {
    hide IsHash;
    StatusTexts();
  }

  /** And the object read is the object that would be written. */
  lemma {:induction false} ToDictInvertsFromDict(v: Object)
    requires FromDict(v).Ok?
    ensures ToDict(FromDict(v).value) == v
  {
    hide IsHash, Consistent, Fields, GoodField, Assembled, FieldValue;
    var m := FromDict(v).value;
    forall k | k in v
      ensures FieldValue(m, k) == v[k]
    {
      FieldReadsBack(v, k);
    }
    VersionReads(v);
    assert ToDict(m).Keys == v.Keys;
  }

  lemma {:induction false} VersionReads(v: Object)
    requires SupportedVersion(v)
    ensures Assembled(v).formatVersion == v[FormatVersion].n
  {
  }
}

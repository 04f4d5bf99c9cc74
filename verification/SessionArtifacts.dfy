/** Recording and reading a session artifact (session/recorder.py, reader.py, format.py): the frame
    file as a byte sequence, the hash as an uninterpreted function of it, and publication as one
    atomic success or failure. */
module SessionArtifacts {
  import opened Prelude
  import opened Arithmetic
  import opened RawCan
  import opened RecordCodec
  import opened Gateway
  import opened SessionModels

  const SESSION_MAGIC: seq<byte> := [84, 78, 83, 82]
  const SESSION_HEADER_SIZE: nat := 8

  /** `encode_session_header` for a supported version. */
  function SessionHeader(version: int): (h: seq<byte>)
    requires version == VERSION_PLAIN || version == VERSION_CALIBRATION
    ensures |h| == SESSION_HEADER_SIZE
  {
    SESSION_MAGIC + [version, 0, 0, 0]
  }

  /** `decode_session_header`. */
  function DecodeSessionHeader(data: seq<byte>): Result<int, SessionError> {
    if |data| != SESSION_HEADER_SIZE || data[..4] != SESSION_MAGIC then Err(BadFormat)
    else
      var version: int := data[4];
      if version != VERSION_PLAIN && version != VERSION_CALIBRATION then Err(SessionError.BadVersion)
      else if data[5..8] != [0, 0, 0] then Err(BadFormat)
      else Ok(version)
  }

  lemma {:induction false} HeaderRoundTrip(data: seq<byte>, version: int)
    ensures DecodeSessionHeader(data) == Ok(version) <==>
            (version == VERSION_PLAIN || version == VERSION_CALIBRATION) && data == SessionHeader(version)
  {
    if |data| == SESSION_HEADER_SIZE {
      assert data == data[..4] + [data[4]] + data[5..8];
    }
  }

  // ---- session names ----

  /** White space as the text functions know it, in ASCII. */
  predicate IsSpace(c: char) {
    c == ' ' || '\t' <= c <= '\r' || '\U{1C}' <= c <= '\U{1F}'
  }

  /** The ten ASCII characters that are white space. */
  lemma {:induction false} SpaceExactly(c: char)
    ensures IsSpace(c) <==> c as int in {9, 10, 11, 12, 13, 28, 29, 30, 31, 32}
  {
  }

  /** The words of a text, one space between them: `" ".join(text.split())`. */
  function Joined(text: string): string {
    if text == "" then ""
    else
      var n := |text| - 1;
      var before := Joined(text[..n]);
      if IsSpace(text[n]) then before
      else if before != "" && IsSpace(text[n - 1]) then before + " " + [text[n]]
      else before + [text[n]]
  }

  /** Single spaces between words, none at the ends. */
  predicate Tidy(text: string) {
    forall i :: 0 <= i < |text| && IsSpace(text[i]) ==>
      text[i] == ' ' && 0 < i < |text| - 1 && !IsSpace(text[i + 1])
  }

  lemma {:induction false} JoinedIsTidy(text: string)
    ensures Tidy(Joined(text))
    ensures Joined(text) != "" ==> !IsSpace(Joined(text)[|Joined(text)| - 1])
  {
    if text != "" {
      JoinedIsTidy(text[..|text| - 1]);
    }
  }

  lemma {:induction false} JoinedAppend(text: string, c: char)
    ensures var before := Joined(text);
            Joined(text + [c]) ==
            if IsSpace(c) then before
            else if before != "" && text != "" && IsSpace(text[|text| - 1]) then before + " " + [c]
            else before + [c]
    ensures Joined("") == ""
  {
    assert (text + [c])[..|text|] == text;
  }

  /** Tidy texts, and their beginnings, are as joined as they can be. */
  lemma {:induction false} TidyIsJoined(text: string, n: nat)
    requires Tidy(text) && n <= |text|
    ensures Joined(text[..n]) == if n > 0 && IsSpace(text[n - 1]) then text[..n - 1] else text[..n]
  {
    hide Joined;
    if n == 0 {
      JoinedAppend("", ' ');
    } else {
      TidyIsJoined(text, n - 1);
      JoinedAppend(text[..n - 1], text[n - 1]);
      assert text[..n] == text[..n - 1] + [text[n - 1]];
      if n > 1 && IsSpace(text[n - 2]) {
        assert text[..n - 1] == text[..n - 2] + " ";
      }
    }
  }

  /** The words of a text: its longest stretches without white space. */
  function Words(text: string): (ws: seq<string>)
    ensures text != "" && !IsSpace(text[|text| - 1]) ==> ws != []
  {
    if text == "" then []
    else
      var n := |text| - 1;
      var before := Words(text[..n]);
      if IsSpace(text[n]) then before
      else if n == 0 || IsSpace(text[n - 1]) then before + [[text[n]]]
      else before[..|before| - 1] + [before[|before| - 1] + [text[n]]]
  }

  /** Texts written after one another with a space between them. */
  function WithSpaces(ws: seq<string>): string {
    if ws == [] then ""
    else if |ws| == 1 then ws[0]
    else WithSpaces(ws[..|ws| - 1]) + " " + ws[|ws| - 1]
  }

  lemma {:induction false} LongerLastWord(ws: seq<string>, c: char)
    requires ws != []
    ensures WithSpaces(ws[..|ws| - 1] + [ws[|ws| - 1] + [c]]) == WithSpaces(ws) + [c]
  {
    var longer := ws[..|ws| - 1] + [ws[|ws| - 1] + [c]];
    assert longer[..|longer| - 1] == ws[..|ws| - 1];
  }

  lemma {:induction false} OneMoreWord(ws: seq<string>, c: char)
    ensures WithSpaces(ws + [[c]]) == if ws == [] then [c] else WithSpaces(ws) + " " + [c]
  {
    assert (ws + [[c]])[..|ws|] == ws;
  }

  predicate IsWord(w: string) {
    w != "" && forall i :: 0 <= i < |w| ==> !IsSpace(w[i])
  }

  lemma {:induction false} WordsAreWords(text: string)
    ensures forall i :: 0 <= i < |Words(text)| ==> IsWord(Words(text)[i])
  {
    hide IsSpace;
    if text != "" {
      WordsAreWords(text[..|text| - 1]);
    }
  }

  lemma {:induction false} SpacedIsEmpty(ws: seq<string>)
    requires forall i :: 0 <= i < |ws| ==> IsWord(ws[i])
    ensures WithSpaces(ws) == "" <==> ws == []
  {
    hide IsSpace;
    if |ws| == 1 {
      assert IsWord(ws[0]);
    }
  }

  /** Normalising is `" ".join(text.split())`: the words of the text with one space between them. */
  lemma {:induction false} JoinedIsWords(text: string)
    ensures Joined(text) == WithSpaces(Words(text))
  {
    if text != "" {
      var n := |text| - 1;
      var before := Words(text[..n]);
      JoinedIsWords(text[..n]);
      WordsAreWords(text[..n]);
      SpacedIsEmpty(before);
      if !IsSpace(text[n]) && (n == 0 || IsSpace(text[n - 1])) {
        OneMoreWord(before, text[n]);
      } else if !IsSpace(text[n]) {
        LongerLastWord(before, text[n]);
      }
    }
  }

  /** `normalize_session_name`. */
  function NormalName(name: Option<string>): Option<string> {
    if name.None? then None else Some(Joined(name.value))
  }

  predicate GoodName(name: Option<string>) {
    name.Some? ==>
      var n := Joined(name.value);
      0 < |n| <= 120 && forall i :: 0 <= i < |n| ==> n[i] >= ' '
  }

  /** Normalising once is enough: a normalised name is tidy and stays as it is. */
  lemma {:induction false} NormalNamesStay(name: Option<string>)
    ensures NormalName(NormalName(name)) == NormalName(name)
    ensures name.Some? ==> Tidy(NormalName(name).value)
    ensures GoodName(NormalName(name)) <==> GoodName(name)
  {
    hide Joined, Tidy;
    if name.Some? {
      var n := Joined(name.value);
      JoinedIsTidy(name.value);
      TidyIsJoined(n, |n|);
      if n != "" {
        LastIsNoSpace(n);
      }
      assert n[..|n|] == n;
    }
  }

  lemma {:induction false} LastIsNoSpace(text: string)
    requires Tidy(text) && text != ""
    ensures !IsSpace(text[|text| - 1])
  {
  }

  // ---- recording ----

  type Hash = seq<byte> -> string

  ghost predicate HexDigest(sha: Hash) {
    forall b: seq<byte> :: IsHash(sha(b))
  }

  /** What a recorder is created with. The identifier, the creation time and the digest of the installed
      database are issued by the system. */
  datatype Arguments = Arguments(
    sessionId: string,
    createdAt: string,
    installedSha: string,
    name: Option<string>,
    scenario: Option<string>,
    dbcName: string,
    dbcSha: Option<string>,
    calibrationId: Option<string>,
    calibrationRevision: Option<int>)

  predicate Issued(a: Arguments) {
    CanonicalUuid(a.sessionId) && a.createdAt != "" && IsHash(a.installedSha)
  }

  /** The database hash a session is marked with: the installed one unless another is given. */
  function DatabaseHash(a: Arguments): string {
    if a.dbcSha.None? || a.dbcSha.value == "" then a.installedSha else a.dbcSha.value
  }

  /** The constructor's own checks. */
  predicate Accepted(a: Arguments) {
    && a.calibrationId.Some? == a.calibrationRevision.Some?
    && GoodName(a.name) && GoodName(a.scenario)
    && (a.calibrationId.Some? ==> a.calibrationId.value != "" && a.calibrationRevision.value != 0)
  }

  /** What a readable artifact needs of them. */
  predicate Presentable(a: Arguments) {
    && a.dbcName != ""
    && (a.dbcSha.None? || a.dbcSha.value == "" || IsHash(a.dbcSha.value))
    && (a.calibrationRevision.Some? ==> a.calibrationRevision.value > 0)
  }

  function VersionOf(a: Arguments): int {
    if a.calibrationId.None? then VERSION_PLAIN else VERSION_CALIBRATION
  }

  function FirstTime(fs: seq<RawFrame>): Option<int> {
    if fs == [] then None else Some(fs[0].timestamp)
  }

  function LastTime(fs: seq<RawFrame>): Option<int> {
    if fs == [] then None else Some(fs[|fs| - 1].timestamp)
  }

  /** The manifest of a session with these frames. */
  function ManifestOf(a: Arguments, fs: seq<RawFrame>, status: Status, framesSha: Option<string>,
                      reason: Option<string>): Manifest {
    Manifest(
      FORMAT_NAME, VersionOf(a), a.sessionId, a.createdAt, NormalName(a.name), NormalName(a.scenario), VEHICLE_PROFILE,
      CAN_NETWORK,
      a.dbcName, DatabaseHash(a), framesSha, status, reason, |fs|, FirstTime(fs), LastTime(fs),
      if fs == [] then 0 else fs[|fs| - 1].timestamp - fs[0].timestamp,
      a.calibrationId, a.calibrationRevision)
  }

  /** What a manifest says of its session: where it comes from, as it was given, with normalised names and the
      installed database hash unless another is given; how many frames, from when to when; version 2 exactly
      with a calibration. */
  lemma {:induction false} ManifestIsExact(a: Arguments, fs: seq<RawFrame>, status: Status,
                                           framesSha: Option<string>, reason: Option<string>)
    ensures var m := ManifestOf(a, fs, status, framesSha, reason);
            && m.formatName == "tuneros.raw_can_session" && m.formatVersion == (if a.calibrationId.Some? then 2 else 1)
            && m.vehicleProfileId == "bmw-e90-335i-n54-2010-manual" && m.canNetwork == "TunerOS synthetic Classic CAN"
            && m.sessionId == a.sessionId && m.createdAt == a.createdAt
            && m.name == (if a.name.None? then None else Some(WithSpaces(Words(a.name.value))))
            && m.scenario == (if a.scenario.None? then None else Some(WithSpaces(Words(a.scenario.value))))
            && m.dbcName == a.dbcName
            && m.dbcSha == (if a.dbcSha == None || a.dbcSha == Some("") then a.installedSha else a.dbcSha.value)
            && m.calibrationId == a.calibrationId && m.calibrationRevision == a.calibrationRevision
            && m.status == status && m.framesSha == framesSha && m.failureReason == reason
            && m.frameCount == |fs|
            && (fs == [] ==> m.first.None? && m.last.None? && m.duration == 0)
            && (fs != [] ==> m.first == Some(fs[0].timestamp) && m.last == Some(fs[|fs| - 1].timestamp)
                             && m.duration == fs[|fs| - 1].timestamp - fs[0].timestamp)
  {
    hide Joined, Words, WithSpaces;
    if a.name.Some? {
      JoinedIsWords(a.name.value);
    }
    if a.scenario.Some? {
      JoinedIsWords(a.scenario.value);
    }
  }

  /** A name is good when its words, spaced, are 1 to 120 characters without control characters. */
  predicate NameFits(name: string) {
    var n := WithSpaces(Words(name));
    1 <= |n| <= 120 && forall i :: 0 <= i < |n| ==> n[i] >= '\U{20}'
  }

  /** What the constructor asks for: a calibration and its revision together, neither empty nor zero, and good
      names. */
  lemma {:induction false} AcceptedExactly(a: Arguments)
    ensures Accepted(a) <==>
            && (a.name.Some? ==> NameFits(a.name.value)) && (a.scenario.Some? ==> NameFits(a.scenario.value))
            && ((a.calibrationId.None? && a.calibrationRevision.None?)
                || (a.calibrationId.Some? && a.calibrationId.value != ""
                    && a.calibrationRevision.Some? && a.calibrationRevision.value != 0))
  {
    hide Joined, Words, WithSpaces;
    if a.name.Some? {
      JoinedIsWords(a.name.value);
    }
    if a.scenario.Some? {
      JoinedIsWords(a.scenario.value);
    }
  }

  /** What the status says about the hash and the failure reason. */
  predicate StatusAgrees(status: Status, framesSha: Option<string>, reason: Option<string>, digest: string) {
    match status
    case Recording => framesSha.None? && reason.None?
    case Complete => framesSha == Some(digest) && reason.None?
    case Incomplete => framesSha == Some(digest) && reason.Some? && reason.value != ""
  }

  lemma {:induction false} ManifestIsConsistent(a: Arguments, fs: seq<RawFrame>, status: Status,
                                                framesSha: Option<string>,
                             reason: Option<string>, digest: string)
    requires Issued(a) && Accepted(a) && Sorted(fs) && StatusAgrees(status, framesSha, reason, digest)
    ensures Consistent(ManifestOf(a, fs, status, framesSha, reason))
  {
    hide CanonicalUuid, Sorted;
    if fs != [] {
      FirstIsNotLater(fs);
    }
  }

  lemma {:induction false} FirstIsNotLater(fs: seq<RawFrame>)
    requires Sorted(fs) && fs != []
    ensures fs[0].timestamp <= fs[|fs| - 1].timestamp
  {
  }

  lemma {:induction false} ReadableIffPresentable(a: Arguments, fs: seq<RawFrame>, status: Status,
                                                  framesSha: Option<string>,
                               reason: Option<string>, digest: string)
    requires Issued(a) && Accepted(a) && Sorted(fs) && IsHash(digest) && StatusAgrees(status, framesSha, reason, digest)
    ensures Readable(ManifestOf(a, fs, status, framesSha, reason)) <==> Presentable(a)
  {
    hide CanonicalUuid, Sorted, Consistent, IsHash;
    ManifestIsConsistent(a, fs, status, framesSha, reason, digest);
  }

  lemma {:induction false} DigestIsHash(sha: Hash, bytes: seq<byte>)
    requires HexDigest(sha)
    ensures IsHash(sha(bytes))
  {
  }

  /** Every manifest a recorder can hold is readable exactly when its arguments were presentable. The
      constructor does not ask for that: it lets a negative revision, an empty database name or an
      arbitrary database hash through. */
  lemma {:induction false} RecorderManifestIsReadable(a: Arguments, fs: seq<RawFrame>, status: Status,
                                                      framesSha: Option<string>,
                                   reason: Option<string>, sha: Hash, bytes: seq<byte>)
    requires Issued(a) && Accepted(a) && Sorted(fs) && HexDigest(sha)
    requires StatusAgrees(status, framesSha, reason, sha(bytes))
    ensures var m := ManifestOf(a, fs, status, framesSha, reason);
            && (FromDict(ToDict(m)).Ok? <==> Presentable(a))
            && (Presentable(a) ==> FromDict(ToDict(m)) == Ok(m))
  {
    hide IsHash, FromDict, ToDict, HexDigest, Issued, StatusAgrees, Sorted, Presentable, Readable;
    DigestIsHash(sha, bytes);
    ReadableIffPresentable(a, fs, status, framesSha, reason, sha(bytes));
    ReadsNothingElse(ManifestOf(a, fs, status, framesSha, reason));
  }

  /** A negative revision is accepted, recorded and never readable. */
  lemma {:induction false} NegativeRevisionIsUnreadable(a: Arguments, fs: seq<RawFrame>, sha: Hash, bytes: seq<byte>)
    requires Issued(a) && Sorted(fs) && HexDigest(sha)
    requires a.calibrationId == Some("stock") && a.calibrationRevision == Some(-1) && a.name.None? && a.scenario.None?
    ensures Accepted(a)
    ensures FromDict(ToDict(ManifestOf(a, fs, Complete, Some(sha(bytes)), None))).Err?
  {
    RecorderManifestIsReadable(a, fs, Complete, Some(sha(bytes)), None, sha, bytes);
  }

  datatype RecordError = NotRecording | Backward | CannotEncode | AlreadyExists | InvalidArguments | PublicationFailed

  function Trimmed(reason: string): string {
    if reason != "" && IsSpace(reason[0]) then Trimmed(reason[1..])
    else if reason != "" && IsSpace(reason[|reason| - 1]) then Trimmed(reason[..|reason| - 1])
    else reason
  }

  predicate AllSpace(text: string) {
    forall i :: 0 <= i < |text| ==> IsSpace(text[i])
  }

  /** A text inside white space. */
  predicate Padded(text: string, left: string, inner: string, right: string) {
    text == left + inner + right && AllSpace(left) && AllSpace(right)
  }

  lemma {:induction false} PadLeft(c: char, text: string, left: string, inner: string, right: string)
    requires IsSpace(c) && Padded(text, left, inner, right)
    ensures Padded([c] + text, [c] + left, inner, right)
  {
    hide IsSpace;
  }

  lemma {:induction false} PadRight(c: char, text: string, left: string, inner: string, right: string)
    requires IsSpace(c) && Padded(text, left, inner, right)
    ensures Padded(text + [c], left, inner, right + [c])
  {
    hide IsSpace;
  }

  /** Trimming takes away the white space at both ends and nothing else. */
  lemma {:induction false} TrimmedIsExact(reason: string) returns (left: string, right: string)
    ensures Padded(reason, left, Trimmed(reason), right)
    ensures var t := Trimmed(reason); t != "" ==> !IsSpace(t[0]) && !IsSpace(t[|t| - 1])
    decreases |reason|
  {
    hide IsSpace;
    if reason != "" && IsSpace(reason[0]) {
      var inner, after := TrimmedIsExact(reason[1..]);
      left, right := [reason[0]] + inner, after;
      PadLeft(reason[0], reason[1..], inner, Trimmed(reason), right);
      assert reason == [reason[0]] + reason[1..];
    } else if reason != "" && IsSpace(reason[|reason| - 1]) {
      var n := |reason| - 1;
      var before, inner := TrimmedIsExact(reason[..n]);
      left, right := before, inner + [reason[n]];
      PadRight(reason[n], reason[..n], left, Trimmed(reason), inner);
      assert reason == reason[..n] + [reason[n]];
    } else {
      left, right := "", "";
    }
  }

  /** The reason that is kept: the first 500 characters of the trimmed one, or a standing text for none. */
  lemma {:induction false} ReasonIsExact(reason: string)
    ensures var t := Trimmed(reason);
            SafeReason(reason) == if t == "" then "recording failed" else if |t| <= 500 then t else t[..500]
  {
  }

  /** The failure reason kept by `abort`: trimmed, at most 500 characters, never empty. */
  function SafeReason(reason: string): (r: string)
    ensures r != "" && |r| <= 500
  {
    var t := Trimmed(reason);
    var cut := if |t| > 500 then t[..500] else t;
    if cut == "" then "recording failed" else cut
  }

  class SessionRecorder {
    const sha: Hash
    var manifest: Manifest
    var stream: seq<byte>
    var hashed: seq<byte>
    var closed: bool
    ghost const arguments: Arguments
    /** The frames accepted so far. */
    ghost var recorded: seq<RawFrame>

    ghost predicate Valid()
      reads this
    {
      && Issued(arguments) && Accepted(arguments)
      && Encodable(recorded) && Sorted(recorded)
      && stream == SessionHeader(VersionOf(arguments)) + RecordsOf(recorded) && hashed == stream
      && closed == !manifest.status.Recording?
      && manifest == ManifestOf(arguments, recorded, manifest.status, manifest.framesSha, manifest.failureReason)
      && StatusAgrees(manifest.status, manifest.framesSha, manifest.failureReason, sha(stream))
    }

    constructor (a: Arguments, sha: Hash)
      requires Issued(a) && Accepted(a)
      ensures Valid() && arguments == a && this.sha == sha && recorded == [] && !closed
    {
      this.sha := sha;
      manifest := ManifestOf(a, [], Recording, None, None);
      stream := SessionHeader(VersionOf(a));
      hashed := SessionHeader(VersionOf(a));
      closed := false;
      arguments := a;
      recorded := [];
    }

    /** Append one frame. A frame that moves backward or does not fit the record is refused, and so is
        any frame once the session is over; a refusal changes nothing. */
    method Record(frame: RawFrame) returns (r: Result<(), RecordError>)
      requires Valid() && ValidFrame(frame)
      modifies this
      ensures Valid()
      ensures r.Ok? <==> && !old(closed)
                         && (old(recorded) != [] ==> old(recorded)[|old(recorded)| - 1].timestamp <= frame.timestamp)
                         && frame.timestamp <= MAX_U64
      ensures r == Err(NotRecording) <==> old(closed)
      ensures r == Err(Backward) <==> !old(closed) && old(recorded) != []
                                      && frame.timestamp < old(recorded)[|old(recorded)| - 1].timestamp
      ensures r.Ok? || r.error in {NotRecording, Backward, CannotEncode}
      ensures r.Ok? ==> recorded == old(recorded) + [frame] && !closed
      ensures r.Err? ==> unchanged(this)
    {
      hide EncodeRecord, Issued, Accepted, RecordsOf, SessionHeader, Sorted, Encodable;
      if closed || !manifest.status.Recording? {
        return Err(NotRecording);
      }
      if manifest.last.Some? && frame.timestamp < manifest.last.value {
        return Err(Backward);
      }
      var encoded := EncodeRecord(frame);
      if encoded.Err? {
        return Err(CannotEncode);
      }
      RecordsAppend(recorded, frame);
      SortedAppend(recorded, frame);
      assert stream + encoded.value == SessionHeader(VersionOf(arguments)) + RecordsOf(recorded + [frame]);
      stream := stream + encoded.value;
      hashed := hashed + encoded.value;
      var first := if manifest.first.None? then frame.timestamp else manifest.first.value;
      manifest := manifest.(frameCount := manifest.frameCount + 1, first := Some(first), last := Some(frame.timestamp),
                            duration := frame.timestamp - first);
      recorded := recorded + [frame];
      return Ok(());
    }

    /** Finish the session: the artifact is published whole or the session is marked incomplete. */
    method CompleteSession(published: bool) returns (r: Result<Manifest, RecordError>)
      requires Valid()
      modifies this
      ensures Valid() && recorded == old(recorded) && stream == old(stream)
      ensures r.Ok? <==> !old(closed) && published
      ensures r == Err(NotRecording) <==> old(closed)
      ensures r == Err(PublicationFailed) <==> !old(closed) && !published
      ensures r.Ok? ==> r.value == manifest && manifest.status.Complete?
      ensures r.Err? && !old(closed) ==> manifest.status.Incomplete?
      ensures old(closed) ==> unchanged(this)
    {
      hide EncodeRecord, CanonicalUuid, RecordsOf;
      if closed || !manifest.status.Recording? {
        return Err(NotRecording);
      }
      closed := true;
      var complete := manifest.(framesSha := Some(sha(hashed)), status := Complete);
      if !published {
        manifest :=
          complete.(status := Incomplete, failureReason := Some("failed publishing completed session artifact"));
        return Err(PublicationFailed);
      }
      manifest := complete;
      return Ok(manifest);
    }

    method Abort(reason: string) returns (m: Manifest)
      requires Valid()
      modifies this
      ensures Valid() && recorded == old(recorded) && stream == old(stream) && m == manifest && closed
      ensures !old(closed) ==> manifest.status.Incomplete? && manifest.failureReason == Some(SafeReason(reason))
      ensures old(closed) ==> unchanged(this)
    {
      hide EncodeRecord, CanonicalUuid, RecordsOf, SafeReason;
      if closed {
        return manifest;
      }
      closed := true;
      manifest :=
        manifest.(framesSha := Some(sha(hashed)), status := Incomplete, failureReason := Some(SafeReason(reason)));
      return manifest;
    }
  }

  /** Creating a recorder: refused when an artifact of that identifier exists, and for bad arguments. */
  method OpenRecorder(a: Arguments, taken: bool, sha: Hash) returns (r: Result<SessionRecorder, RecordError>)
    requires Issued(a)
    ensures r.Ok? <==> !taken && Accepted(a)
    ensures r.Err? ==> r.error == if taken then AlreadyExists else InvalidArguments
    ensures r.Ok? ==> fresh(r.value) && r.value.Valid() && r.value.arguments == a && r.value.sha == sha
    ensures r.Ok? ==> r.value.recorded == [] && !r.value.closed
  {
    if taken {
      return Err(AlreadyExists);
    }
    if !Accepted(a) {
      return Err(InvalidArguments);
    }
    var recorder := new SessionRecorder(a, sha);
    return Ok(recorder);
  }

  lemma {:induction false} SortedAppend(fs: seq<RawFrame>, f: RawFrame)
    requires Sorted(fs) && (fs != [] ==> fs[|fs| - 1].timestamp <= f.timestamp)
    ensures Sorted(fs + [f])
  {
  }

  lemma {:induction false} RecordsAppend(fs: seq<RawFrame>, f: RawFrame)
    requires Encodable(fs) && ValidFrame(f) && f.timestamp <= MAX_U64
    ensures Encodable(fs + [f]) && RecordsOf(fs + [f]) == RecordsOf(fs) + EncodeRecord(f).value
  {
    hide EncodeRecord;
    assert (fs + [f])[..|fs|] == fs;
  }

  // ---- reading ----

  /** What `validate_integrity` checks, over the whole file. */
  predicate IntegrityHolds(m: Manifest, bytes: seq<byte>, sha: Hash) {
    && |bytes| >= SESSION_HEADER_SIZE
    && DecodeSessionHeader(bytes[..SESSION_HEADER_SIZE]) == Ok(m.formatVersion)
    && var (frames, end) := FramesOf(bytes[SESSION_HEADER_SIZE..]);
    && end == Clean && Sorted(frames)
    && |frames| == m.frameCount && FirstTime(frames) == m.first && LastTime(frames) == m.last
    && m.framesSha == Some(sha(bytes))
  }

  /** A file agrees with its manifest exactly when it starts with the header of the manifest's version, holds
      nothing but whole records, each a frame, in nondecreasing time, and has the manifest's count, first and
      last time and hash. */
  lemma {:induction false} IntegrityIsExact(m: Manifest, bytes: seq<byte>, sha: Hash)
    ensures IntegrityHolds(m, bytes, sha) <==>
            && |bytes| >= 8 && (m.formatVersion == 1 || m.formatVersion == 2)
            && bytes[..8] == [84, 78, 83, 82, m.formatVersion, 0, 0, 0]
            && var frames := FramesOf(bytes[8..]).0;
            && |bytes| == 8 + 19 * |frames| && Sorted(frames) && |frames| == m.frameCount
            && m.first == (if frames == [] then None else Some(frames[0].timestamp))
            && m.last == (if frames == [] then None else Some(frames[|frames| - 1].timestamp))
            && m.framesSha == Some(sha(bytes))
  {
    hide FramesOf, Sorted, DecodeRecord, RecordAt;
    if |bytes| >= 8 {
      var body := bytes[8..];
      FramesAreTheRecords(body);
      DivMod(|body|, RECORD_SIZE);
      HeaderRoundTrip(bytes[..8], m.formatVersion);
    }
  }

  datatype ReadError =
    | Unreadable(error: SessionError)
    | NotComplete
    | DatabaseMismatch
    | HeaderMismatch
    | TruncatedRecord
    | MalformedRecord
    | NotNondecreasing
    | CountMismatch
    | TimestampMismatch
    | HashMismatch

  lemma {:induction false} NoFramesYet()
    ensures Sorted([]) && FramesOf([]) == ([], Clean)
  {
  }

  lemma {:induction false} FramesFromFirst(bytes: seq<byte>)
    requires bytes != []
    ensures |bytes| < RECORD_SIZE ==> FramesOf(bytes).1 != Clean && FramesOf(bytes).0 == []
    ensures |bytes| >= RECORD_SIZE ==>
              match DecodeRecord(bytes[..RECORD_SIZE])
              case Err(_) => FramesOf(bytes).1 != Clean && FramesOf(bytes).0 == []
              case Ok(f) =>
                var rest := FramesOf(bytes[RECORD_SIZE..]);
                FramesOf(bytes) == ([f] + rest.0, rest.1)
  {
    hide DecodeRecord;
  }

  /** The loop that both `frames` and `validate_integrity` run. */
  class SessionReader {
    const manifest: Manifest
    const bytes: seq<byte>
    const sha: Hash

    constructor (manifest: Manifest, bytes: seq<byte>, sha: Hash)
      ensures this.manifest == manifest && this.bytes == bytes && this.sha == sha
    {
      this.manifest, this.bytes, this.sha := manifest, bytes, sha;
    }

    /** The frames yielded before the file ends or fails a check, and how it ended: the nondecreasing
        beginning of the file's frames, and success exactly when the integrity check holds. */
    method Frames() returns (frames: seq<RawFrame>, end: Result<(), ReadError>)
      ensures end.Ok? <==> IntegrityHolds(manifest, bytes, sha)
      ensures end == Err(HeaderMismatch) <==>
              || (manifest.formatVersion != 1 && manifest.formatVersion != 2)
              || !([84, 78, 83, 82, manifest.formatVersion, 0, 0, 0] <= bytes)
      ensures end == Err(HashMismatch) <==>
              manifest.framesSha != Some(sha(bytes))
              && IntegrityHolds(manifest.(framesSha := Some(sha(bytes))), bytes, sha)
      ensures Sorted(frames)
      ensures |bytes| >= SESSION_HEADER_SIZE ==> frames <= FramesOf(bytes[SESSION_HEADER_SIZE..]).0
      ensures end.Ok? ==> frames == FramesOf(bytes[SESSION_HEADER_SIZE..]).0
    {
      hide DecodeRecord, DecodeSessionHeader, FramesOf, Sorted;
      frames := [];
      NoFramesYet();
      var header := if |bytes| >= SESSION_HEADER_SIZE then bytes[..SESSION_HEADER_SIZE] else bytes;
      ShortHeader(bytes);
      HeaderOfVersion(bytes, manifest.formatVersion);
      if DecodeSessionHeader(header) != Ok(manifest.formatVersion) {
        return [], Err(HeaderMismatch);
      }
      var position := SESSION_HEADER_SIZE;
      var first: Option<int>, last: Option<int> := None, None;
      var count := 0;
      var hashed := header;
      ghost var all := FramesOf(bytes[SESSION_HEADER_SIZE..]);
      assert [] + all.0 == all.0;
      while position < |bytes|
        invariant SESSION_HEADER_SIZE <= position <= |bytes| && hashed == bytes[..position]
        invariant all == (frames + FramesOf(bytes[position..]).0, FramesOf(bytes[position..]).1)
        invariant Sorted(frames) && count == |frames| && first == FirstTime(frames) && last == LastTime(frames)
      {
        ghost var rest := bytes[position..];
        FramesFromFirst(rest);
        assert frames + [] == frames;
        if |bytes| - position < RECORD_SIZE {
          return frames, Err(TruncatedRecord);
        }
        var record := bytes[position..position + RECORD_SIZE];
        assert rest[..RECORD_SIZE] == record && rest[RECORD_SIZE..] == bytes[position + RECORD_SIZE..];
        var decoded := DecodeRecord(record);
        if decoded.Err? {
          return frames, Err(MalformedRecord);
        }
        var frame := decoded.value;
        ghost var later := FramesOf(bytes[position + RECORD_SIZE..]).0;
        assert frames + ([frame] + later) == frames + [frame] + later;
        if last.Some? && frame.timestamp < last.value {
          NotSorted(frames, frame, later);
          return frames, Err(NotNondecreasing);
        }
        SortedAppend(frames, frame);
        hashed := hashed + record;
        first := if first.None? then Some(frame.timestamp) else first;
        last := Some(frame.timestamp);
        count := count + 1;
        frames := frames + [frame];
        position := position + RECORD_SIZE;
      }
      assert bytes[position..] == [] && frames + [] == frames && hashed == bytes;
      if count != manifest.frameCount {
        return frames, Err(CountMismatch);
      }
      if first != manifest.first || last != manifest.last {
        return frames, Err(TimestampMismatch);
      }
      if manifest.framesSha != Some(sha(hashed)) {
        return frames, Err(HashMismatch);
      }
      return frames, Ok(());
    }

    method ValidateIntegrity() returns (r: Result<(), ReadError>)
      ensures r.Ok? <==> IntegrityHolds(manifest, bytes, sha)
    {
      var _, end := Frames();
      r := end;
    }
  }

  lemma {:induction false} HeaderOfVersion(bytes: seq<byte>, version: int)
    ensures |bytes| >= 8 && DecodeSessionHeader(bytes[..8]) == Ok(version) <==>
            (version == 1 || version == 2) && [84, 78, 83, 82, version, 0, 0, 0] <= bytes
  {
    if |bytes| >= 8 {
      HeaderRoundTrip(bytes[..8], version);
    }
  }

  lemma {:induction false} ShortHeader(bytes: seq<byte>)
    ensures |bytes| < SESSION_HEADER_SIZE ==> DecodeSessionHeader(bytes).Err?
  {
  }

  lemma {:induction false} NotSorted(frames: seq<RawFrame>, frame: RawFrame, later: seq<RawFrame>)
    requires frames != [] && frame.timestamp < frames[|frames| - 1].timestamp
    ensures !Sorted(frames + [frame] + later)
  {
    var all := frames + [frame] + later;
    assert all[|frames| - 1] == frames[|frames| - 1] && all[|frames|] == frame;
  }

  /** Opening an artifact: its manifest must be readable, complete, and made with the expected database
      when one is named. */
  method OpenReader(manifest: Object, bytes: seq<byte>, expectedDbc: Option<string>, sha: Hash)
    returns (r: Result<SessionReader, ReadError>)
    ensures r.Ok? <==> FromDict(manifest).Ok? && FromDict(manifest).value.status.Complete?
                       && (expectedDbc.Some? ==> FromDict(manifest).value.dbcSha == expectedDbc.value)
    ensures FromDict(manifest).Err? ==> r == Err(Unreadable(FromDict(manifest).error))
    ensures r == Err(NotComplete) <==> FromDict(manifest).Ok? && !FromDict(manifest).value.status.Complete?
    ensures r == Err(DatabaseMismatch) <==>
            && FromDict(manifest).Ok? && FromDict(manifest).value.status.Complete?
            && expectedDbc.Some? && FromDict(manifest).value.dbcSha != expectedDbc.value
    ensures r.Ok? ==> fresh(r.value) && r.value.manifest == FromDict(manifest).value && r.value.bytes == bytes
                      && r.value.sha == sha
  {
    hide FromDict;
    var read := FromDict(manifest);
    if read.Err? {
      return Err(Unreadable(read.error));
    }
    if !read.value.status.Complete? {
      return Err(NotComplete);
    }
    if expectedDbc.Some? && read.value.dbcSha != expectedDbc.value {
      return Err(DatabaseMismatch);
    }
    var reader := new SessionReader(read.value, bytes, sha);
    return Ok(reader);
  }

  // ---- the round trip ----

  /** Whatever was recorded and completed, in either format version, passes the integrity check and is
      read back frame for frame. */
  lemma {:induction false} SessionRoundTrip(a: Arguments, fs: seq<RawFrame>, sha: Hash)
    requires Encodable(fs) && Sorted(fs)
    ensures var bytes := SessionHeader(VersionOf(a)) + RecordsOf(fs);
            && IntegrityHolds(ManifestOf(a, fs, Complete, Some(sha(bytes)), None), bytes, sha)
            && FramesOf(bytes[SESSION_HEADER_SIZE..]) == (fs, Clean)
  {
    hide RecordsOf, FramesOf, DecodeSessionHeader;
    var header := SessionHeader(VersionOf(a));
    var bytes := header + RecordsOf(fs);
    assert bytes[..SESSION_HEADER_SIZE] == header && bytes[SESSION_HEADER_SIZE..] == RecordsOf(fs);
    HeaderRoundTrip(header, VersionOf(a));
    StreamRoundTrip(fs);
  }

  /** Frame `i` fits its record and is no older than any earlier frame that fits. */
  predicate InOrder(frames: seq<RawFrame>, i: nat)
    requires i < |frames|
  {
    && frames[i].timestamp <= MAX_U64
    && forall j :: 0 <= j < i && frames[j].timestamp <= MAX_U64 ==> frames[j].timestamp <= frames[i].timestamp
  }

  /** The frames of an arbitrary input a recorder keeps. */
  function InOrderOf(frames: seq<RawFrame>): seq<RawFrame> {
    if frames == [] then []
    else InOrderOf(frames[..|frames| - 1])
         + if InOrder(frames, |frames| - 1) then [frames[|frames| - 1]] else []
  }

  lemma {:induction false} SortedIsInOrder(frames: seq<RawFrame>)
    requires Encodable(frames) && Sorted(frames)
    ensures InOrderOf(frames) == frames
  {
    if frames != [] {
      var n := |frames| - 1;
      SortedIsInOrder(frames[..n]);
      assert frames == frames[..n] + [frames[n]];
    }
  }

  /** The newest frame kept is the latest of all that fit: comparing with it alone, as the recorder does,
      is comparing with every earlier frame. */
  lemma {:induction false} NewestKeptIsLatest(frames: seq<RawFrame>)
    ensures var kept := InOrderOf(frames);
            forall j :: 0 <= j < |frames| && frames[j].timestamp <= MAX_U64 ==>
              kept != [] && frames[j].timestamp <= kept[|kept| - 1].timestamp
    ensures var kept := InOrderOf(frames);
            kept != [] ==>
              exists j :: 0 <= j < |frames| && frames[j] == kept[|kept| - 1] && frames[j].timestamp <= MAX_U64
  {
    if frames != [] {
      var n := |frames| - 1;
      NewestKeptIsLatest(frames[..n]);
      assert forall j :: 0 <= j < n ==> frames[..n][j] == frames[j];
    }
  }

  lemma {:induction false} KeptNext(frames: seq<RawFrame>, i: nat)
    requires i < |frames|
    ensures var kept := InOrderOf(frames[..i]);
            && InOrderOf(frames[..i + 1]) == kept + (if InOrder(frames, i) then [frames[i]] else [])
            && (InOrder(frames, i) <==> frames[i].timestamp <= MAX_U64
                                        && (kept != [] ==> kept[|kept| - 1].timestamp <= frames[i].timestamp))
  {
    hide InOrderOf;
    var before := frames[..i + 1];
    assert before[..i] == frames[..i] && before[i] == frames[i];
    assert InOrder(before, i) == InOrder(frames, i);
    KeptLast(before);
    NewestKeptIsLatest(frames[..i]);
  }

  lemma {:induction false} KeptLast(frames: seq<RawFrame>)
    requires frames != []
    ensures var n := |frames| - 1;
            InOrderOf(frames) == InOrderOf(frames[..n]) + if InOrder(frames, n) then [frames[n]] else []
  {
  }

  /** The whole way through the objects: record any frames at all, complete, write the manifest, open and
      read. Reading succeeds exactly when the arguments were presentable, and then gives the frames that
      fit and are in order; no other frame was accepted. */
  method RecordAndRead(a: Arguments, sha: Hash, frames: seq<RawFrame>)
    returns (read: seq<RawFrame>, end: Result<(), ReadError>)
    requires Issued(a) && Accepted(a) && HexDigest(sha) && forall i :: 0 <= i < |frames| ==> ValidFrame(frames[i])
    ensures end.Ok? <==> Presentable(a)
    ensures end.Ok? ==> read == InOrderOf(frames) && (Encodable(frames) && Sorted(frames) ==> read == frames)
  {
    hide ManifestOf, CanonicalUuid, EncodeRecord, InOrderOf, HexDigest, Issued, Accepted, Presentable, ToDict, FromDict;
    var recorder := new SessionRecorder(a, sha);
    assert frames[..0] == [] && InOrderOf([]) == [] by {
      NothingKept();
    }
    for i := 0 to |frames|
      invariant fresh(recorder) && recorder.Valid() && recorder.arguments == a && recorder.sha == sha
                && !recorder.closed
      invariant recorder.recorded == InOrderOf(frames[..i])
    {
      KeptNext(frames, i);
      var recorded := recorder.Record(frames[i]);
    }
    assert frames[..|frames|] == frames;
    if Encodable(frames) && Sorted(frames) {
      SortedIsInOrder(frames);
    }
    var manifest := recorder.CompleteSession(true);
    CompletedManifest(recorder);
    RecordedIsReadable(recorder);
    var reader := OpenReader(ToDict(manifest.value), recorder.stream, Some(DatabaseHash(a)), sha);
    if reader.Err? {
      return [], Err(reader.error);
    }
    SessionRoundTrip(a, recorder.recorded, sha);
    read, end := reader.value.Frames();
  }

  lemma {:induction false} NothingKept()
    ensures InOrderOf([]) == []
  {
  }

  lemma {:induction false} RecordedIsReadable(recorder: SessionRecorder)
    requires recorder.Valid() && recorder.manifest.status.Complete? && HexDigest(recorder.sha)
    ensures var v := ToDict(recorder.manifest);
            && (FromDict(v).Ok? <==> Presentable(recorder.arguments))
            && (FromDict(v).Ok? ==> FromDict(v).value == recorder.manifest)
    ensures recorder.manifest.dbcSha == DatabaseHash(recorder.arguments)
  {
    hide IsHash, FromDict, ToDict, HexDigest, Issued, Accepted, Sorted, Presentable, Readable, DatabaseHash, RecordsOf,
      EncodeRecord;
    var m := recorder.manifest;
    RecorderManifestIsReadable(recorder.arguments, recorder.recorded, m.status, m.framesSha, m.failureReason,
                               recorder.sha, recorder.stream);
  }

  lemma {:induction false} CompletedManifest(recorder: SessionRecorder)
    requires recorder.Valid() && recorder.manifest.status.Complete?
    ensures recorder.stream == SessionHeader(VersionOf(recorder.arguments)) + RecordsOf(recorder.recorded)
    ensures recorder.manifest ==
            ManifestOf(recorder.arguments, recorder.recorded, Complete, Some(recorder.sha(recorder.stream)), None)
  {
  }
}

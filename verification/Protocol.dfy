/** The framed protocol between the driver and the private backend. */
module Protocol {
  import opened Wrappers
  import opened Octets
  import opened Codec
  import opened BuildModel

  const PROTOCOL_VERSION: nat := 5
  const MAX_FRAME_BYTES: nat := 16 * 1024 * 1024
  const MAX_TEXT_BYTES: nat := 1024 * 1024
  /** "WRELBEP" and a zero byte */
  const MAGIC: seq<Byte> := [0x57, 0x52, 0x45, 0x4c, 0x42, 0x45, 0x50, 0]

  const REQUEST: Byte := 1
  const RESPONSE: Byte := 2

  // ---- paths ----

  const SLASH: Byte := 0x2f
  const BACKSLASH: Byte := 0x5c
  const COLON: Byte := 0x3a
  const DOT: Byte := 0x2e

  /** The components between slashes. */
  function Components(path: seq<Byte>): (parts: seq<seq<Byte>>)
    ensures |parts| > 0
  {
    if |path| == 0 then [[]]
    else
      var rest := Components(path[1..]);
      if path[0] == SLASH then [[]] + rest else [[path[0]] + rest[0]] + rest[1..]
  }

  predicate PlainComponent(part: seq<Byte>) { part != [] && part != [DOT] && part != [DOT, DOT] }

  /** A relative path that stays inside the private build directory. */
  predicate ValidPath(path: seq<Byte>)
  {
    && |path| > 0 && path[0] != SLASH
    && (forall k :: 0 <= k < |path| ==> path[k] != 0 && path[k] != COLON && path[k] != BACKSLASH)
    && forall k :: 0 <= k < |Components(path)| ==> PlainComponent(Components(path)[k])
  }

  function PathOf(t: seq<Byte>): Option<seq<Byte>> { if ValidPath(t) then Some(t) else None }
  function PathText(p: seq<Byte>): seq<Byte> { p }
  function PathCodec(rules: Rules): Codec<seq<Byte>> { Mapped(Text(MAX_TEXT_BYTES, rules.utf8), PathOf, PathText) }

  lemma {:induction false} PathExact(rules: Rules)
    ensures Exact(PathCodec(rules))
  {
    TextExact(MAX_TEXT_BYTES, rules.utf8);
    MappedExact(Text(MAX_TEXT_BYTES, rules.utf8), PathOf, PathText);
  }

  // ---- frames ----

  function Header(kind: Byte, length: nat): seq<Byte>
  {
    MAGIC + NumberBytes(PROTOCOL_VERSION, 4) + [kind] + NumberBytes(length, 4)
  }

  const HEADER_BYTES: nat := 17

  function Frame(kind: Byte, payload: seq<Byte>): Option<seq<Byte>>
  {
    if |payload| > MAX_FRAME_BYTES then None else Some(Header(kind, |payload|) + payload)
  }

  function Unframe(kind: Byte, bytes: seq<Byte>): Option<seq<Byte>>
  {
    if |bytes| < HEADER_BYTES || |bytes| > MAX_FRAME_BYTES + HEADER_BYTES then None
    else if bytes[..8] != MAGIC then None
    else if LittleEndian(bytes[8..12]) != PROTOCOL_VERSION then None
    else if bytes[12] != kind then None
    else if LittleEndian(bytes[13..17]) > MAX_FRAME_BYTES then None
    else if |bytes| - HEADER_BYTES != LittleEndian(bytes[13..17]) then None
    else Some(bytes[HEADER_BYTES..])
  }

  lemma {:induction false} Lengths()
    ensures MAX_FRAME_BYTES < Bound(4) && PROTOCOL_VERSION < Bound(4)
  {
    assert Bound(4) == 0x100 * (0x100 * (0x100 * 0x100)) by {
      assert Bound(1) == 0x100 && Bound(2) == 0x100 * Bound(1) && Bound(3) == 0x100 * Bound(2);
    }
  }

  lemma {:induction false} HeaderParts(kind: Byte, length: nat, payload: seq<Byte>)
    ensures var bytes := Header(kind, length) + payload;
      |bytes| == HEADER_BYTES + |payload| && bytes[..8] == MAGIC && bytes[8..12] == NumberBytes(PROTOCOL_VERSION, 4)
      && bytes[12] == kind && bytes[13..17] == NumberBytes(length, 4) && bytes[HEADER_BYTES..] == payload
  {
  }

  /** Framing and unframing undo each other: the frames of a kind are exactly what unframing accepts. */
  lemma {:induction false} UnframeFrame(kind: Byte, payload: seq<Byte>)
    ensures |payload| <= MAX_FRAME_BYTES ==> Unframe(kind, Frame(kind, payload).value) == Some(payload)
  {
    Lengths();
    if |payload| <= MAX_FRAME_BYTES {
      HeaderParts(kind, |payload|, payload);
      BytesOfNumber(PROTOCOL_VERSION, 4);
      BytesOfNumber(|payload|, 4);
    }
  }

  lemma {:induction false} FrameUnframe(kind: Byte, bytes: seq<Byte>)
    ensures Unframe(kind, bytes).Some? ==> Frame(kind, Unframe(kind, bytes).value) == Some(bytes)
  {
    if Unframe(kind, bytes).Some? {
      var payload := bytes[HEADER_BYTES..];
      NumberOfBytes(bytes[8..12]);
      NumberOfBytes(bytes[13..17]);
      FiveParts(bytes);
    }
  }

  lemma {:induction false} FiveParts(bytes: seq<Byte>)
    requires |bytes| >= HEADER_BYTES
    ensures bytes == bytes[..8] + bytes[8..12] + [bytes[12]] + bytes[13..17] + bytes[HEADER_BYTES..]
  {
  }

  // ---- responses ----

  datatype FailureKind =
    | ProtocolFailure | InputFailure | TargetFailure | VerificationFailure
    | CodegenFailure | LinkFailure | ReportFailure | InternalFailure

  function FailureTag(k: FailureKind): nat
  {
    match k
    case ProtocolFailure => 0 case InputFailure => 1 case TargetFailure => 2 case VerificationFailure => 3
    case CodegenFailure => 4 case LinkFailure => 5 case ReportFailure => 6 case InternalFailure => 7
  }

  function FailureOf(n: nat): Option<FailureKind>
  {
    match n
    case 0 => Some(ProtocolFailure)
    case 1 => Some(InputFailure)
    case 2 => Some(TargetFailure)
    case 3 => Some(VerificationFailure)
    case 4 => Some(CodegenFailure)
    case 5 => Some(LinkFailure)
    case 6 => Some(ReportFailure)
    case 7 => Some(InternalFailure)
    case _ => None
  }

  function FailureCodec(): Codec<FailureKind> { Mapped(Number(1), FailureOf, FailureTag) }

  datatype Outcome =
    | Success(artifact: seq<Byte>, artifactDigest: Digest, report: seq<Byte>, reportDigest: Digest)
    | Failure(kind: FailureKind, message: seq<Byte>)

  datatype Response = Response(id: nat, outcome: Outcome)

  type SuccessFields = (seq<Byte>, (Digest, (seq<Byte>, Digest)))
  type FailureFields = (FailureKind, seq<Byte>)

  function OutcomeOf(x: Either<SuccessFields, FailureFields>): Option<Outcome>
  {
    match x case First(s) => Some(Success(s.0, s.1.0, s.1.1.0, s.1.1.1)) case Second(f) => Some(Failure(f.0, f.1))
  }

  function OutcomeParts(o: Outcome): Either<SuccessFields, FailureFields>
  {
    match o case Success(a, x, r, y) => First((a, (x, (r, y)))) case Failure(k, m) => Second((k, m))
  }

  function SuccessCodec(rules: Rules): Codec<SuccessFields>
  {
    Both(PathCodec(rules), Both(Raw(32), Both(PathCodec(rules), Raw(32))))
  }

  function FailureFieldsCodec(rules: Rules): Codec<FailureFields>
  {
    Both(FailureCodec(), Text(MAX_TEXT_BYTES, rules.utf8))
  }

  function OutcomeCodec(rules: Rules): Codec<Outcome>
  {
    Mapped(Choice(SuccessCodec(rules), FailureFieldsCodec(rules)), OutcomeOf, OutcomeParts)
  }

  function ResponseOf(x: (nat, Outcome)): Option<Response> { Some(Response(x.0, x.1)) }
  function ResponseParts(r: Response): (nat, Outcome) { (r.id, r.outcome) }
  function ResponseCodec(rules: Rules): Codec<Response>
  {
    Mapped(Both(Number(8), OutcomeCodec(rules)), ResponseOf, ResponseParts)
  }

  lemma {:induction false} SuccessExact(rules: Rules)
    ensures Exact(SuccessCodec(rules))
  {
    var path, digest := PathCodec(rules), Raw(32);
    RawExact(32);
    PathExact(rules);
    BothExact(path, digest);
    BothExact(digest, Both(path, digest));
    BothExact(path, Both(digest, Both(path, digest)));
  }

  lemma {:induction false} FailureExact(rules: Rules)
    ensures Exact(FailureFieldsCodec(rules))
  {
    NumberExact(1);
    TextExact(MAX_TEXT_BYTES, rules.utf8);
    MappedExact(Number(1), FailureOf, FailureTag);
    BothExact(FailureCodec(), Text(MAX_TEXT_BYTES, rules.utf8));
  }

  lemma {:induction false} OutcomeExact(rules: Rules)
    ensures Exact(OutcomeCodec(rules))
  {
    SuccessExact(rules);
    FailureExact(rules);
    ChoiceExact(SuccessCodec(rules), FailureFieldsCodec(rules));
    MappedExact(Choice(SuccessCodec(rules), FailureFieldsCodec(rules)), OutcomeOf, OutcomeParts);
  }

  lemma {:induction false} ResponseExact(rules: Rules)
    ensures Exact(ResponseCodec(rules))
  {
    OutcomeExact(rules);
    NumberExact(8);
    BothExact(Number(8), OutcomeCodec(rules));
    MappedExact(Both(Number(8), OutcomeCodec(rules)), ResponseOf, ResponseParts);
  }

  // ---- requests ----

  datatype Request = Request(
    id: nat, build: Configuration, wir: seq<Byte>, wirDigest: Digest, runtimeDigest: Digest, runtimeBytes: nat,
    targetPackage: seq<Byte>, output: seq<Byte>, report: seq<Byte>)

  type Evidence = (Digest, (Digest, nat))
  type Paths = (seq<Byte>, (seq<Byte>, (seq<Byte>, seq<Byte>)))

  function RequestOf(x: (nat, (Configuration, (Evidence, Paths)))): Option<Request>
  {
    var e, p := x.1.1.0, x.1.1.1;
    Some(Request(x.0, x.1.0, p.0, e.0, e.1.0, e.1.1, p.1.0, p.1.1.0, p.1.1.1))
  }

  function RequestParts(r: Request): (nat, (Configuration, (Evidence, Paths)))
  {
    (r.id, (r.build, ((r.wirDigest, (r.runtimeDigest, r.runtimeBytes)),
     (r.wir, (r.targetPackage, (r.output, r.report))))))
  }

  function EvidenceCodec(): Codec<Evidence> { Both(Raw(32), Both(Raw(32), Number(8))) }

  function PathsCodec(rules: Rules): Codec<Paths>
  {
    Both(PathCodec(rules), Both(PathCodec(rules), Both(PathCodec(rules), PathCodec(rules))))
  }

  function RequestFields(rules: Rules): Codec<(nat, (Configuration, (Evidence, Paths)))>
  {
    Both(Number(8), Both(ConfigurationCodec(rules, MAX_TEXT_BYTES), Both(EvidenceCodec(), PathsCodec(rules))))
  }

  function RequestCodec(rules: Rules): Codec<Request> { Mapped(RequestFields(rules), RequestOf, RequestParts) }

  lemma {:induction false} PathsExact(rules: Rules)
    ensures Exact(PathsCodec(rules)) && Exact(EvidenceCodec())
  {
    var path := PathCodec(rules);
    PathExact(rules);
    BothExact(path, path);
    BothExact(path, Both(path, path));
    BothExact(path, Both(path, Both(path, path)));
    RawExact(32);
    NumberExact(8);
    BothExact(Raw(32), Number(8));
    BothExact(Raw(32), Both(Raw(32), Number(8)));
  }

  lemma {:induction false} RequestExact(rules: Rules)
    ensures Exact(RequestCodec(rules))
  {
    var build, evidence, paths := ConfigurationCodec(rules, MAX_TEXT_BYTES), EvidenceCodec(), PathsCodec(rules);
    PathsExact(rules);
    ConfigurationExact(rules, MAX_TEXT_BYTES);
    NumberExact(8);
    BothExact(evidence, paths);
    BothExact(build, Both(evidence, paths));
    BothExact(Number(8), Both(build, Both(evidence, paths)));
    MappedExact(RequestFields(rules), RequestOf, RequestParts);
  }

  // ---- messages ----

  /** A message whose fields fit: `accept` is what the decoder checks after reading. */
  function EncodeMessage<T>(c: Codec<T>, kind: Byte, accept: T -> bool, x: T): Option<seq<Byte>>
  {
    if c.valid(x) && accept(x) then Frame(kind, c.encode(x)) else None
  }

  /** The payload is read to its end. */
  function DecodeMessage<T>(c: Codec<T>, kind: Byte, accept: T -> bool, bytes: seq<Byte>): Option<T>
  {
    match Unframe(kind, bytes)
    case None => None
    case Some(payload) =>
      match c.decode(payload)
      case None => None
      case Some(d) => if d.rest == [] && accept(d.value) then Some(d.value) else None
  }

  /** On accepted frames, encoding and decoding are inverse bijections. */
  lemma {:induction false} MessageBijection<T(!new)>(c: Codec<T>, kind: Byte, accept: T -> bool, x: T, bytes: seq<Byte>)
    requires Exact(c)
    ensures EncodeMessage(c, kind, accept, x) == Some(bytes) <==> DecodeMessage(c, kind, accept, bytes) == Some(x)
  {
    UnframeFrame(kind, c.encode(x));
    FrameUnframe(kind, bytes);
    assert Returns(c, x, []);
    assert c.encode(x) + [] == c.encode(x);
    if Unframe(kind, bytes).Some? {
      var payload := Unframe(kind, bytes).value;
      assert Reproduces(c, payload);
      if c.decode(payload).Some? && c.decode(payload).value.rest == [] {
        assert payload == c.encode(c.decode(payload).value.value);
      }
    }
  }

  // ---- the two messages ----

  function Always<T>(): T -> bool { (_: T) => true }

  function EncodeResponse(rules: Rules, r: Response): Option<seq<Byte>>
  {
    EncodeMessage(ResponseCodec(rules), RESPONSE, Always(), r)
  }

  function DecodeResponse(rules: Rules, bytes: seq<Byte>): Option<Response>
  {
    DecodeMessage(ResponseCodec(rules), RESPONSE, Always(), bytes)
  }

  /** A valid profile, and evidence of the target runtime. */
  function Acceptable(rules: Rules): Request -> bool
  {
    (r: Request) => ValidProfile(rules, r.build.profile) && r.runtimeBytes != 0 && !AllZero(r.runtimeDigest)
  }

  /** The driver also presents the sealed configuration the request must carry. */
  function EncodeRequest(rules: Rules, r: Request, sealed: Configuration): Option<seq<Byte>>
  {
    if r.build != sealed then None else EncodeMessage(RequestCodec(rules), REQUEST, Acceptable(rules), r)
  }

  function DecodeRequest(rules: Rules, bytes: seq<Byte>): Option<Request>
  {
    DecodeMessage(RequestCodec(rules), REQUEST, Acceptable(rules), bytes)
  }

  lemma {:induction false} ResponseBijection(rules: Rules, r: Response, bytes: seq<Byte>)
    ensures EncodeResponse(rules, r) == Some(bytes) <==> DecodeResponse(rules, bytes) == Some(r)
  {
    ResponseExact(rules);
    MessageBijection(ResponseCodec(rules), RESPONSE, Always(), r, bytes);
  }

  lemma {:induction false} RequestBijection(rules: Rules, r: Request, bytes: seq<Byte>)
    ensures EncodeRequest(rules, r, r.build) == Some(bytes) <==> DecodeRequest(rules, bytes) == Some(r)
  {
    RequestExact(rules);
    MessageBijection(RequestCodec(rules), REQUEST, Acceptable(rules), r, bytes);
  }

  // ---- the backend's own check ----

  datatype Processing =
    InvalidProtocol | RequestInvalid | DigestMismatch | NoncanonicalFrame | Accepted(request: Request)

  /** How the backend process treats a frame, up to the checks on paths and files. */
  function Process(rules: Rules, sha256: seq<Byte> -> Digest, frame: seq<Byte>): Processing
  {
    match DecodeRequest(rules, frame)
    case None => InvalidProtocol
    case Some(r) =>
      match CanonicalBytes(rules, r.build.profile)
      case None => RequestInvalid
      case Some(profile) =>
        if !Seals(rules, r.build, sha256(profile)) then DigestMismatch
        else
          match EncodeRequest(rules, r, r.build)
          case None => RequestInvalid
          case Some(canonical) => if canonical != frame then NoncanonicalFrame else Accepted(r)
  }

  /** The check for a noncanonical frame never fires: a decoded request whose build seals is accepted. */
  lemma {:induction false} NoncanonicalUnreachable(rules: Rules, sha256: seq<Byte> -> Digest, frame: seq<Byte>)
    ensures match DecodeRequest(rules, frame)
      case None => Process(rules, sha256, frame) == InvalidProtocol
      case Some(r) =>
        CanonicalBytes(rules, r.build.profile).Some?
        && Process(rules, sha256, frame)
           == if Seals(rules, r.build, sha256(CanonicalBytes(rules, r.build.profile).value))
              then Accepted(r) else DigestMismatch
  {
    if DecodeRequest(rules, frame).Some? {
      RequestBijection(rules, DecodeRequest(rules, frame).value, frame);
      DecodedAcceptable(rules, frame);
    }
  }

  lemma {:induction false} DecodedAcceptable(rules: Rules, frame: seq<Byte>)
    ensures DecodeRequest(rules, frame).Some? ==> ValidProfile(rules, DecodeRequest(rules, frame).value.build.profile)
  {
    assert DecodeRequest(rules, frame).Some? ==> Acceptable(rules)(DecodeRequest(rules, frame).value);
  }
}

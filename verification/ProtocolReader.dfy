/** The protocol's reader, which consumes a frame in place, and the decoders built from its reads. */
module ProtocolReader {
  import opened Wrappers
  import opened Octets
  import opened Codec
  import opened BuildModel
  import opened Protocol

  /** A read took exactly what the codec decodes off the front. */
  ghost predicate Reads<T>(c: Codec<T>, before: seq<Byte>, r: Option<T>, after: seq<Byte>)
  {
    match c.decode(before)
    case None => r.None?
    case Some(d) => r == Some(d.value) && after == d.rest
  }

  /** The same, folded: the two guards keep the codec closed both where the fact is known and where it
      is to be shown, so that a read made of many others does not look into them. */
  ghost predicate Took<T>(c: Codec<T>, before: seq<Byte>, r: Option<T>, after: seq<Byte>)
  {
    forall j {:trigger Opened(j, c, before)} :: Opened(j, c, before) ==>
      exists k {:trigger Closed(k, c, before)} :: Closed(k, c, before) && Reads(c, before, r, after)
  }

  lemma {:induction false} TookReads<T>(c: Codec<T>, before: seq<Byte>, r: Option<T>, after: seq<Byte>)
    ensures Took(c, before, r, after) <==> Reads(c, before, r, after)
  {
    Unfold(c, before);
  }

  lemma {:induction false} Unfold<T>(c: Codec<T>, before: seq<Byte>)
    ensures Opened(0, c, before) && Closed(0, c, before)
  {
  }

  /** Reading two parts one after the other reads both; where a part fails, so does the whole. */
  lemma {:induction false} TwoTake<A(!new), B(!new)>(a: Codec<A>, b: Codec<B>, before: seq<Byte>)
    ensures forall after :: Took(a, before, None, after) ==> Took(Both(a, b), before, None, after)
    ensures forall x, mid, after ::
      Took(a, before, Some(x), mid) && Took(b, mid, None, after) ==> Took(Both(a, b), before, None, after)
    ensures forall x, mid, y, after ::
      Took(a, before, Some(x), mid) && Took(b, mid, Some(y), after) ==> Took(Both(a, b), before, Some((x, y)), after)
  {
    forall after | Took(a, before, None, after) ensures Took(Both(a, b), before, None, after) {
      TookReads(a, before, None, after);
      TookReads(Both(a, b), before, None, after);
    }
    forall x, mid, after | Took(a, before, Some(x), mid) && Took(b, mid, None, after)
      ensures Took(Both(a, b), before, None, after)
    {
      TookReads(a, before, Some(x), mid);
      TookReads(b, mid, None, after);
      TookReads(Both(a, b), before, None, after);
    }
    forall x, mid, y, after | Took(a, before, Some(x), mid) && Took(b, mid, Some(y), after)
      ensures Took(Both(a, b), before, Some((x, y)), after)
    {
      TookReads(a, before, Some(x), mid);
      TookReads(b, mid, Some(y), after);
      TookReads(Both(a, b), before, Some((x, y)), after);
    }
  }

  function Into<A, B>(into: A -> Option<B>, x: Option<A>): Option<B>
  {
    match x case None => None case Some(a) => into(a)
  }

  lemma {:induction false} MapTakes<A(!new), B(!new)>(
      c: Codec<A>, into: A -> Option<B>, back: B -> A, before: seq<Byte>)
    ensures forall x, after :: Took(c, before, x, after) ==> Took(Mapped(c, into, back), before, Into(into, x), after)
  {
    forall x, after | Took(c, before, x, after) ensures Took(Mapped(c, into, back), before, Into(into, x), after) {
      TookReads(c, before, x, after);
      TookReads(Mapped(c, into, back), before, Into(into, x), after);
    }
  }

  /** A tag byte selects what is read next. */
  lemma {:induction false} ChoiceTakes<A(!new), B(!new)>(a: Codec<A>, b: Codec<B>, before: seq<Byte>)
    ensures |before| > 0 ==> LittleEndian(before[..1]) == before[0]
    ensures |before| == 0 || before[0] > 1 ==> forall after :: Took(Choice(a, b), before, None, after)
    ensures |before| > 0 && before[0] == 0 ==> FirstTakes(a, b, before)
    ensures |before| > 0 && before[0] == 1 ==> SecondTakes(a, b, before)
  {
    if |before| > 0 { OneByte(before[..1]); }
    if |before| == 0 || before[0] > 1 {
      forall after ensures Took(Choice(a, b), before, None, after) { TookReads(Choice(a, b), before, None, after); }
    } else if before[0] == 0 {
      forall x, after | Took(a, before[1..], x, after) ensures Took(Choice(a, b), before, Into(TakeFirst, x), after) {
        TookReads(a, before[1..], x, after);
        TookReads(Choice(a, b), before, Into(TakeFirst, x), after);
      }
    } else {
      forall x, after | Took(b, before[1..], x, after) ensures Took(Choice(a, b), before, Into(TakeSecond, x), after) {
        TookReads(b, before[1..], x, after);
        TookReads(Choice(a, b), before, Into(TakeSecond, x), after);
      }
    }
  }

  function TakeFirst<A, B>(x: A): Option<Either<A, B>> { Some(First(x)) }
  function TakeSecond<A, B>(y: B): Option<Either<A, B>> { Some(Second(y)) }

  ghost predicate FirstTakes<A(!new), B(!new)>(a: Codec<A>, b: Codec<B>, before: seq<Byte>)
    requires |before| > 0
  {
    forall x, after :: Took(a, before[1..], x, after) ==> Took(Choice(a, b), before, Into(TakeFirst, x), after)
  }

  ghost predicate SecondTakes<A(!new), B(!new)>(a: Codec<A>, b: Codec<B>, before: seq<Byte>)
    requires |before| > 0
  {
    forall x, after :: Took(b, before[1..], x, after) ==> Took(Choice(a, b), before, Into(TakeSecond, x), after)
  }

  lemma {:induction false} OneByte(bytes: seq<Byte>)
    requires |bytes| == 1
    ensures LittleEndian(bytes) == bytes[0]
  {
    assert LittleEndian(bytes[1..]) == 0;
  }

  /** An optional digest is a flag and, if it is set, a digest. */
  lemma {:induction false} FlaggedDigest(bytes: seq<Byte>)
    ensures DataCodec().decode(bytes)
         == match BoolCodec().decode(bytes)
            case None => None
            case Some(flag) =>
              if !flag.value then Some(Decoded(None, flag.rest))
              else match Raw(32).decode(flag.rest)
                   case None => None case Some(d) => Some(Decoded(Some(d.value), d.rest))
  {
    assert DataCodec().decode(bytes) == MapDecoded(DecodeChoice(Raw(0), Raw(32), bytes), DataOf);
    assert BoolCodec().decode(bytes) == MapDecoded(Number(1).decode(bytes), BoolOf);
    if |bytes| > 0 {
      OneByte(bytes[..1]);
      if bytes[0] == 0 { assert Raw(0).decode(bytes[1..]) == Some(Decoded([], bytes[1..])); }
    }
  }

  class Reader {
    var remaining: seq<Byte>

    constructor (bytes: seq<Byte>)
      ensures remaining == bytes
    {
      remaining := bytes;
    }

    method Take(length: nat) returns (r: Option<seq<Byte>>)
      modifies this
      ensures Reads(Raw(length), old(remaining), r, remaining)
      ensures r.Some? <==> length <= |old(remaining)|
    {
      if |remaining| < length { return None; }
      r := Some(remaining[..length]);
      remaining := remaining[length..];
    }

    method U8() returns (r: Option<nat>)
      modifies this
      ensures Reads(Number(1), old(remaining), r, remaining)
    {
      var bytes :- Take(1);
      OneByte(bytes);
      return Some(bytes[0]);
    }

    method U32() returns (r: Option<nat>)
      modifies this
      ensures Reads(Number(4), old(remaining), r, remaining)
    {
      var bytes :- Take(4);
      return Some(LittleEndian(bytes));
    }

    method U64() returns (r: Option<nat>)
      modifies this
      ensures Reads(Number(8), old(remaining), r, remaining)
    {
      var bytes :- Take(8);
      return Some(LittleEndian(bytes));
    }

    method Boolean() returns (r: Option<bool>)
      modifies this
      ensures Reads(BoolCodec(), old(remaining), r, remaining)
    {
      var tag :- U8();
      return BoolOf(tag);
    }

    method ReadDigest() returns (r: Option<Digest>)
      modifies this
      ensures Reads(Raw(32), old(remaining), r, remaining)
    {
      r := Take(32);
    }

    method ReadText(rules: Rules) returns (r: Option<seq<Byte>>)
      modifies this
      ensures Reads(Text(MAX_TEXT_BYTES, rules.utf8), old(remaining), r, remaining)
    {
      var length :- U32();
      if length > MAX_TEXT_BYTES { return None; }
      var bytes :- Take(length);
      return if rules.utf8(bytes) then Some(bytes) else None;
    }

    method ReadPath(rules: Rules) returns (r: Option<seq<Byte>>)
      modifies this
      ensures Reads(PathCodec(rules), old(remaining), r, remaining)
    {
      var text :- ReadText(rules);
      return PathOf(text);
    }

    method ReadKind() returns (r: Option<FailureKind>)
      modifies this
      ensures Took(FailureCodec(), old(remaining), r, remaining)
    {
      Unfold(FailureCodec(), remaining);
      var tag :- U8();
      return FailureOf(tag);
    }

    method ReadFailure(rules: Rules) returns (r: Option<FailureFields>)
      modifies this
      ensures Took(FailureFieldsCodec(rules), old(remaining), r, remaining)
    {
      TwoTake(FailureCodec(), Text(MAX_TEXT_BYTES, rules.utf8), remaining);
      var kind :- ReadKind();
      var message :- ReadName(rules);
      return Some((kind, message));
    }

    method ReadSuccess(rules: Rules) returns (r: Option<SuccessFields>)
      modifies this
      ensures Took(SuccessCodec(rules), old(remaining), r, remaining)
    {
      ghost var path, digest := PathCodec(rules), Raw(32);
      TwoTake(path, Both(digest, Both(path, digest)), remaining);
      var artifact :- TakePath(rules);
      TwoTake(digest, Both(path, digest), remaining);
      var artifactDigest :- TakeDigest();
      TwoTake(path, digest, remaining);
      var report :- TakePath(rules);
      var reportDigest :- TakeDigest();
      return Some((artifact, (artifactDigest, (report, reportDigest))));
    }

    method ReadOutcome(rules: Rules) returns (r: Option<Outcome>)
      modifies this
      ensures Took(OutcomeCodec(rules), old(remaining), r, remaining)
    {
      ghost var s, f := SuccessCodec(rules), FailureFieldsCodec(rules);
      MapTakes(Choice(s, f), OutcomeOf, OutcomeParts, remaining);
      ChoiceTakes(s, f, remaining);
      if |remaining| == 0 || remaining[0] > 1 {
        forall after ensures Took(OutcomeCodec(rules), remaining, None, after) {
          assert Took(Choice(s, f), remaining, None, after);
        }
      }
      var tag :- U8();
      if tag == 0 {
        var fields :- ReadSuccess(rules);
        return OutcomeOf(First(fields));
      } else if tag == 1 {
        var fields :- ReadFailure(rules);
        return OutcomeOf(Second(fields));
      } else {
        return None;
      }
    }

    // ---- configurations, and the reads they are made of ----

    method TakeDigest() returns (r: Option<Digest>)
      modifies this
      ensures Took(Raw(32), old(remaining), r, remaining)
    {
      Unfold(Raw(32), remaining);
      r := Take(32);
    }

    method ReadName(rules: Rules) returns (r: Option<seq<Byte>>)
      modifies this
      ensures Took(Text(MAX_TEXT_BYTES, rules.utf8), old(remaining), r, remaining)
    {
      Unfold(Text(MAX_TEXT_BYTES, rules.utf8), remaining);
      r := ReadText(rules);
    }

    method ReadMode() returns (r: Option<Mode>)
      modifies this
      ensures Took(ModeCodec(), old(remaining), r, remaining)
    {
      Unfold(ModeCodec(), remaining);
      var tag :- U8();
      return ModeOf(tag);
    }

    method ReadRecording() returns (r: Option<Recording>)
      modifies this
      ensures Took(RecordingCodec(), old(remaining), r, remaining)
    {
      Unfold(RecordingCodec(), remaining);
      var tag :- U8();
      return RecordingOf(tag);
    }

    method ReadLevel() returns (r: Option<Level>)
      modifies this
      ensures Took(LevelCodec(), old(remaining), r, remaining)
    {
      Unfold(LevelCodec(), remaining);
      var tag :- U8();
      return LevelOf(tag);
    }

    method ReadComptime() returns (r: Option<Comptime>)
      modifies this
      ensures Took(ComptimeCodec(), old(remaining), r, remaining)
    {
      Unfold(ComptimeCodec(), remaining);
      var steps :- U64();
      var memoryBytes :- U64();
      var callDepth :- U32();
      return Some(Comptime(steps, memoryBytes, callDepth));
    }

    method ReadMemory() returns (r: Option<Memory>)
      modifies this
      ensures Took(MemoryCodec(), old(remaining), r, remaining)
    {
      Unfold(MemoryCodec(), remaining);
      var staticBytes :- U64();
      var peakBytes :- U64();
      var eventLogBytes :- U64();
      return Some(Memory(staticBytes, peakBytes, eventLogBytes));
    }

    method ReadDma() returns (r: Option<Dma>)
      modifies this
      ensures Took(DmaCodec(), old(remaining), r, remaining)
    {
      Unfold(DmaCodec(), remaining);
      var coherent :- Boolean();
      var requireIommu :- Boolean();
      return Some(Dma(coherent, requireIommu));
    }

    method ReadRecovery() returns (r: Option<Recovery>)
      modifies this
      ensures Took(RecoveryCodec(), old(remaining), r, remaining)
    {
      Unfold(RecoveryCodec(), remaining);
      var resetTimeout :- U64();
      var quarantineBytes :- U64();
      return Some(Recovery(resetTimeout, quarantineBytes));
    }

    /** A flag, and a digest if it is set. */
    method ReadData() returns (r: Option<Option<Digest>>)
      modifies this
      ensures Took(DataCodec(), old(remaining), r, remaining)
    {
      Unfold(DataCodec(), remaining);
      FlaggedDigest(remaining);
      var present :- Boolean();
      if present {
        var digest :- ReadDigest();
        return Some(Some(digest));
      } else {
        return Some(None);
      }
    }

    method ReadOptimization() returns (r: Option<Optimization>)
      modifies this
      ensures Took(OptimizationCodec(), old(remaining), r, remaining)
    {
      MapTakes(Both(LevelCodec(), DataCodec()), OptimizationOf, OptimizationParts, remaining);
      TwoTake(LevelCodec(), DataCodec(), remaining);
      var level :- ReadLevel();
      var data :- ReadData();
      return Some(Optimization(level, data));
    }

    method ReadDiagnostics() returns (r: Option<Diagnostics>)
      modifies this
      ensures Took(DiagnosticsCodec(), old(remaining), r, remaining)
    {
      Unfold(DiagnosticsCodec(), remaining);
      var sealedDeployment :- Boolean();
      var warningsAsErrors :- Boolean();
      var watchdogs :- Boolean();
      return Some(Diagnostics(sealedDeployment, warningsAsErrors, watchdogs));
    }

    method ReadFront(rules: Rules) returns (r: Option<FrontFields>)
      modifies this
      ensures Took(FrontCodec(rules, MAX_TEXT_BYTES), old(remaining), r, remaining)
    {
      ghost var limits := Both(ComptimeCodec(), MemoryCodec());
      TwoTake(Text(MAX_TEXT_BYTES, rules.utf8), Both(ModeCodec(), limits), remaining);
      var name :- ReadName(rules);
      TwoTake(ModeCodec(), limits, remaining);
      var mode :- ReadMode();
      TwoTake(ComptimeCodec(), MemoryCodec(), remaining);
      var comptime :- ReadComptime();
      var memory :- ReadMemory();
      return Some((name, (mode, (comptime, memory))));
    }

    method ReadBack() returns (r: Option<BackFields>)
      modifies this
      ensures Took(BackCodec(), old(remaining), r, remaining)
    {
      ghost var last := Both(OptimizationCodec(), DiagnosticsCodec());
      TwoTake(DmaCodec(), Both(RecoveryCodec(), Both(RecordingCodec(), last)), remaining);
      var dma :- ReadDma();
      TwoTake(RecoveryCodec(), Both(RecordingCodec(), last), remaining);
      var recovery :- ReadRecovery();
      TwoTake(RecordingCodec(), last, remaining);
      var recording :- ReadRecording();
      TwoTake(OptimizationCodec(), DiagnosticsCodec(), remaining);
      var optimization :- ReadOptimization();
      var diagnostics :- ReadDiagnostics();
      return Some((dma, (recovery, (recording, (optimization, diagnostics)))));
    }

    method ReadProfile(rules: Rules) returns (r: Option<Profile>)
      modifies this
      ensures Took(ProfileCodec(rules, MAX_TEXT_BYTES), old(remaining), r, remaining)
    {
      MapTakes(Both(FrontCodec(rules, MAX_TEXT_BYTES), BackCodec()), ProfileOf, ProfileParts, remaining);
      TwoTake(FrontCodec(rules, MAX_TEXT_BYTES), BackCodec(), remaining);
      var front :- ReadFront(rules);
      var back :- ReadBack();
      return ProfileOf((front, back));
    }

    method ReadDigests() returns (r: Option<Digests>)
      modifies this
      ensures Took(DigestsCodec(), old(remaining), r, remaining)
    {
      Unfold(DigestsCodec(), remaining);
      var targetPackage :- ReadDigest();
      var standardLibrary :- ReadDigest();
      var sourceGraph :- ReadDigest();
      var request :- ReadDigest();
      var profile :- ReadDigest();
      return Some((targetPackage, (standardLibrary, (sourceGraph, (request, profile)))));
    }

    method ReadLanguage() returns (r: Option<Language>)
      modifies this
      ensures Took(LanguageCodec(), old(remaining), r, remaining)
    {
      Unfold(LanguageCodec(), remaining);
      var tag :- U8();
      return LanguageOf(tag);
    }

    method ReadTarget(rules: Rules) returns (r: Option<seq<Byte>>)
      modifies this
      ensures Took(TargetCodec(rules, MAX_TEXT_BYTES), old(remaining), r, remaining)
    {
      Unfold(TargetCodec(rules, MAX_TEXT_BYTES), remaining);
      var text :- ReadText(rules);
      return TargetOf(rules)(text);
    }

    method ReadIdentityFields(rules: Rules) returns (r: Option<IdentityFields>)
      modifies this
      ensures Took(IdentityFieldsCodec(rules, MAX_TEXT_BYTES), old(remaining), r, remaining)
    {
      ghost var targetCodec, digestsCodec := TargetCodec(rules, MAX_TEXT_BYTES), DigestsCodec();
      TwoTake(Raw(32), Both(LanguageCodec(), Both(targetCodec, digestsCodec)), remaining);
      var compiler :- TakeDigest();
      TwoTake(LanguageCodec(), Both(targetCodec, digestsCodec), remaining);
      var language :- ReadLanguage();
      TwoTake(targetCodec, digestsCodec, remaining);
      var target :- ReadTarget(rules);
      var digests :- ReadDigests();
      return Some((compiler, (language, (target, digests))));
    }

    method ReadIdentity(rules: Rules) returns (r: Option<Identity>)
      modifies this
      ensures Took(IdentityCodec(rules, MAX_TEXT_BYTES), old(remaining), r, remaining)
    {
      MapTakes(IdentityFieldsCodec(rules, MAX_TEXT_BYTES), IdentityOf, IdentityParts, remaining);
      var fields :- ReadIdentityFields(rules);
      return IdentityOf(fields);
    }

    method ReadConfiguration(rules: Rules) returns (r: Option<Configuration>)
      modifies this
      ensures Took(ConfigurationCodec(rules, MAX_TEXT_BYTES), old(remaining), r, remaining)
    {
      ghost var identityCodec, profileCodec := IdentityCodec(rules, MAX_TEXT_BYTES),
        ProfileCodec(rules, MAX_TEXT_BYTES);
      MapTakes(Both(identityCodec, profileCodec), ConfigurationOf, ConfigurationParts, remaining);
      TwoTake(identityCodec, profileCodec, remaining);
      var identity :- ReadIdentity(rules);
      var profile :- ReadProfile(rules);
      return Some(Configuration(identity, profile));
    }

    // ---- requests ----

    method ReadEvidence() returns (r: Option<Evidence>)
      modifies this
      ensures Took(EvidenceCodec(), old(remaining), r, remaining)
    {
      Unfold(EvidenceCodec(), remaining);
      var wirDigest :- ReadDigest();
      var runtimeDigest :- ReadDigest();
      var runtimeBytes :- U64();
      return Some((wirDigest, (runtimeDigest, runtimeBytes)));
    }

    method TakePath(rules: Rules) returns (r: Option<seq<Byte>>)
      modifies this
      ensures Took(PathCodec(rules), old(remaining), r, remaining)
    {
      Unfold(PathCodec(rules), remaining);
      r := ReadPath(rules);
    }

    method ReadPaths(rules: Rules) returns (r: Option<Paths>)
      modifies this
      ensures Took(PathsCodec(rules), old(remaining), r, remaining)
    {
      ghost var path := PathCodec(rules);
      TwoTake(path, Both(path, Both(path, path)), remaining);
      var wir :- TakePath(rules);
      TwoTake(path, Both(path, path), remaining);
      var targetPackage :- TakePath(rules);
      TwoTake(path, path, remaining);
      var output :- TakePath(rules);
      var report :- TakePath(rules);
      return Some((wir, (targetPackage, (output, report))));
    }

    method TakeId() returns (r: Option<nat>)
      modifies this
      ensures Took(Number(8), old(remaining), r, remaining)
    {
      Unfold(Number(8), remaining);
      r := U64();
    }

    method ReadRequestFields(rules: Rules) returns (r: Option<(nat, (Configuration, (Evidence, Paths)))>)
      modifies this
      ensures Took(RequestFields(rules), old(remaining), r, remaining)
    {
      ghost var build, rest := ConfigurationCodec(rules, MAX_TEXT_BYTES), Both(EvidenceCodec(), PathsCodec(rules));
      TwoTake(Number(8), Both(build, rest), remaining);
      var id :- TakeId();
      TwoTake(build, rest, remaining);
      var configuration :- ReadConfiguration(rules);
      TwoTake(EvidenceCodec(), PathsCodec(rules), remaining);
      var evidence :- ReadEvidence();
      var paths :- ReadPaths(rules);
      return Some((id, (configuration, (evidence, paths))));
    }

    method ReadRequest(rules: Rules) returns (r: Option<Request>)
      modifies this
      ensures Took(RequestCodec(rules), old(remaining), r, remaining)
    {
      MapTakes(RequestFields(rules), RequestOf, RequestParts, remaining);
      var fields :- ReadRequestFields(rules);
      return RequestOf(fields);
    }
  }

  /** Check the header field by field and leave the payload in the reader. */
  method OpenFrame(bytes: seq<Byte>, kind: Byte) returns (ok: bool, reader: Reader)
    ensures fresh(reader)
    ensures ok <==> Unframe(kind, bytes).Some?
    ensures ok ==> reader.remaining == Unframe(kind, bytes).value
  {
    reader := new Reader(bytes);
    ok := false;
    if |bytes| > MAX_FRAME_BYTES + HEADER_BYTES { return; }
    var magic := reader.Take(8);
    if magic.None? || magic.value != MAGIC { return; }
    var version := reader.U32();
    if version.None? { return; }
    assert bytes[8..][..4] == bytes[8..12] && bytes[8..][4..] == bytes[12..];
    if version.value != PROTOCOL_VERSION { return; }
    var found := reader.U8();
    if found.None? { return; }
    assert bytes[12..][..1] == [bytes[12]] && bytes[12..][1..] == bytes[13..];
    OneByte([bytes[12]]);
    if found.value != kind { return; }
    var length := reader.U32();
    if length.None? { return; }
    assert bytes[13..][..4] == bytes[13..17] && bytes[13..][4..] == bytes[17..];
    ok := length.value <= MAX_FRAME_BYTES && |reader.remaining| == length.value;
  }

  method ReadFields(rules: Rules, reader: Reader) returns (r: Option<Response>)
    modifies reader
    ensures Took(ResponseCodec(rules), old(reader.remaining), r, reader.remaining)
  {
    MapTakes(Both(Number(8), OutcomeCodec(rules)), ResponseOf, ResponseParts, reader.remaining);
    TwoTake(Number(8), OutcomeCodec(rules), reader.remaining);
    var id :- reader.TakeId();
    var outcome :- reader.ReadOutcome(rules);
    return Some(Response(id, outcome));
  }

  method ReadResponse(rules: Rules, bytes: seq<Byte>) returns (r: Option<Response>)
    ensures r == DecodeResponse(rules, bytes)
  {
    var ok, reader := OpenFrame(bytes, RESPONSE);
    if !ok { return None; }
    ghost var payload := reader.remaining;
    var response := ReadFields(rules, reader);
    TookReads(ResponseCodec(rules), payload, response, reader.remaining);
    return if reader.remaining == [] then response else None;
  }

  /** The payload is read to its end before the profile and the runtime evidence are checked. */
  method ReadRequest(rules: Rules, bytes: seq<Byte>) returns (r: Option<Request>)
    ensures r == DecodeRequest(rules, bytes)
  {
    var ok, reader := OpenFrame(bytes, REQUEST);
    if !ok { return None; }
    ghost var payload := reader.remaining;
    var request := reader.ReadRequest(rules);
    TookReads(RequestCodec(rules), payload, request, reader.remaining);
    if request.None? || reader.remaining != [] { return None; }
    return if Acceptable(rules)(request.value) then request else None;
  }
}

/** The encoders, which push field after field onto a byte vector. */
module ProtocolWriter {
  import opened Wrappers
  import opened Octets
  import opened Codec
  import opened BuildModel
  import opened Protocol

  /** A push appended exactly what the codec encodes. As for reads, guards keep the codec folded. */
  ghost predicate Wrote<T>(c: Codec<T>, before: seq<Byte>, x: T, after: seq<Byte>)
  {
    forall j {:trigger Opened(j, c, before)} :: Opened(j, c, before) ==>
      exists k {:trigger Closed(k, c, before)} :: Closed(k, c, before) && after == before + c.encode(x)
  }

  lemma {:induction false} WroteBytes<T>(c: Codec<T>, before: seq<Byte>, x: T, after: seq<Byte>)
    ensures Wrote(c, before, x, after) <==> after == before + c.encode(x)
  {
    assert Opened(0, c, before) && Closed(0, c, before);
  }

  lemma {:induction false} WroteBoth<A, B>(
      a: Codec<A>, b: Codec<B>, before: seq<Byte>, x: A, mid: seq<Byte>, y: B, after: seq<Byte>)
    requires Wrote(a, before, x, mid) && Wrote(b, mid, y, after)
    ensures Wrote(Both(a, b), before, (x, y), after)
  {
    WroteBytes(a, before, x, mid);
    WroteBytes(b, mid, y, after);
    WroteBytes(Both(a, b), before, (x, y), after);
    assert before + a.encode(x) + b.encode(y) == before + (a.encode(x) + b.encode(y));
  }

  lemma {:induction false} WroteMapped<A, B>(
      c: Codec<A>, into: A -> Option<B>, back: B -> A, before: seq<Byte>, x: B, after: seq<Byte>)
    requires Wrote(c, before, back(x), after)
    ensures Wrote(Mapped(c, into, back), before, x, after)
  {
    WroteBytes(c, before, back(x), after);
    WroteBytes(Mapped(c, into, back), before, x, after);
  }

  class Writer {
    var bytes: seq<Byte>

    constructor ()
      ensures bytes == []
    {
      bytes := [];
    }

    // ---- scalars ----

    method PushNumber(n: nat, width: nat)
      modifies this
      ensures Wrote(Number(width), old(bytes), n, bytes)
    {
      bytes := bytes + NumberBytes(n, width);
      WroteBytes(Number(width), old(bytes), n, bytes);
    }

    method PushBool(b: bool)
      modifies this
      ensures Wrote(BoolCodec(), old(bytes), b, bytes)
    {
      PushNumber(BoolTag(b), 1);
      WroteMapped(Number(1), BoolOf, BoolTag, old(bytes), b, bytes);
    }

    method PushDigest(d: Digest)
      modifies this
      ensures Wrote(Raw(32), old(bytes), d, bytes)
    {
      bytes := bytes + d;
      WroteBytes(Raw(32), old(bytes), d, bytes);
    }

    /** The length, and the text; `limit` only tells which codec the push is compared with. */
    method PushString(t: seq<Byte>, ghost rules: Rules, ghost limit: nat)
      modifies this
      ensures Wrote(Text(limit, rules.utf8), old(bytes), t, bytes)
    {
      bytes := bytes + NumberBytes(|t|, 4);
      bytes := bytes + t;
      WroteBytes(Text(limit, rules.utf8), old(bytes), t, bytes);
      assert bytes == old(bytes) + (NumberBytes(|t|, 4) + t);
    }

    /** The protocol's string refuses text that is too long. */
    method PushText(t: seq<Byte>, ghost rules: Rules) returns (ok: bool)
      modifies this
      ensures ok <==> |t| <= MAX_TEXT_BYTES
      ensures ok ==> Wrote(Text(MAX_TEXT_BYTES, rules.utf8), old(bytes), t, bytes)
    {
      if |t| > MAX_TEXT_BYTES { return false; }
      PushString(t, rules, MAX_TEXT_BYTES);
      return true;
    }

    method PushPath(path: seq<Byte>, ghost rules: Rules) returns (ok: bool)
      modifies this
      ensures ok <==> |path| <= MAX_TEXT_BYTES
      ensures ok ==> Wrote(PathCodec(rules), old(bytes), path, bytes)
    {
      ok := PushText(path, rules);
      if ok { WroteMapped(Text(MAX_TEXT_BYTES, rules.utf8), PathOf, PathText, old(bytes), path, bytes); }
    }

    // ---- the groups of a profile ----

    method PushMode(m: Mode)
      modifies this
      ensures Wrote(ModeCodec(), old(bytes), m, bytes)
    {
      PushNumber(ModeTag(m), 1);
      WroteMapped(Number(1), ModeOf, ModeTag, old(bytes), m, bytes);
    }

    method PushRecording(r: Recording)
      modifies this
      ensures Wrote(RecordingCodec(), old(bytes), r, bytes)
    {
      PushNumber(RecordingTag(r), 1);
      WroteMapped(Number(1), RecordingOf, RecordingTag, old(bytes), r, bytes);
    }

    method PushComptime(c: Comptime)
      modifies this
      ensures Wrote(ComptimeCodec(), old(bytes), c, bytes)
    {
      PushNumber(c.steps, 8);
      ghost var b1 := bytes;
      PushNumber(c.memoryBytes, 8);
      ghost var b2 := bytes;
      PushNumber(c.callDepth, 4);
      WroteBoth(Number(8), Number(4), b1, c.memoryBytes, b2, c.callDepth, bytes);
      WroteBoth(Number(8), Both(Number(8), Number(4)), old(bytes), c.steps, b1, (c.memoryBytes, c.callDepth), bytes);
      WroteMapped(Both(Number(8), Both(Number(8), Number(4))), ComptimeOf, ComptimeParts, old(bytes), c, bytes);
    }

    method PushMemory(m: Memory)
      modifies this
      ensures Wrote(MemoryCodec(), old(bytes), m, bytes)
    {
      PushNumber(m.staticBytes, 8);
      ghost var b1 := bytes;
      PushNumber(m.peakBytes, 8);
      ghost var b2 := bytes;
      PushNumber(m.eventLogBytes, 8);
      WroteBoth(Number(8), Number(8), b1, m.peakBytes, b2, m.eventLogBytes, bytes);
      WroteBoth(Number(8), Both(Number(8), Number(8)), old(bytes), m.staticBytes, b1, (m.peakBytes, m.eventLogBytes),
        bytes);
      WroteMapped(Both(Number(8), Both(Number(8), Number(8))), MemoryOf, MemoryParts, old(bytes), m, bytes);
    }

    method PushDma(d: Dma)
      modifies this
      ensures Wrote(DmaCodec(), old(bytes), d, bytes)
    {
      PushBool(d.coherent);
      ghost var b1 := bytes;
      PushBool(d.requireIommu);
      WroteBoth(BoolCodec(), BoolCodec(), old(bytes), d.coherent, b1, d.requireIommu, bytes);
      WroteMapped(Both(BoolCodec(), BoolCodec()), DmaOf, DmaParts, old(bytes), d, bytes);
    }

    method PushRecovery(r: Recovery)
      modifies this
      ensures Wrote(RecoveryCodec(), old(bytes), r, bytes)
    {
      PushNumber(r.resetTimeout, 8);
      ghost var b1 := bytes;
      PushNumber(r.quarantineBytes, 8);
      WroteBoth(Number(8), Number(8), old(bytes), r.resetTimeout, b1, r.quarantineBytes, bytes);
      WroteMapped(Both(Number(8), Number(8)), RecoveryOf, RecoveryParts, old(bytes), r, bytes);
    }

    /** A flag, and the digest if there is one. */
    method PushData(data: Option<Digest>)
      modifies this
      ensures Wrote(DataCodec(), old(bytes), data, bytes)
    {
      match data {
        case Some(digest) =>
          PushBool(true);
          ghost var b1 := bytes;
          PushDigest(digest);
          WroteSome(old(bytes), b1, digest, bytes);
        case None =>
          PushBool(false);
          WroteNone(old(bytes), bytes);
      }
    }

    method PushOptimization(o: Optimization)
      modifies this
      ensures Wrote(OptimizationCodec(), old(bytes), o, bytes)
    {
      PushNumber(LevelTag(o.level), 1);
      ghost var b1 := bytes;
      PushData(o.profileData);
      WroteMapped(Number(1), LevelOf, LevelTag, old(bytes), o.level, b1);
      WroteBoth(LevelCodec(), DataCodec(), old(bytes), o.level, b1, o.profileData, bytes);
      WroteMapped(Both(LevelCodec(), DataCodec()), OptimizationOf, OptimizationParts, old(bytes), o, bytes);
    }

    method PushDiagnostics(d: Diagnostics)
      modifies this
      ensures Wrote(DiagnosticsCodec(), old(bytes), d, bytes)
    {
      ghost var b := BoolCodec();
      PushBool(d.sealedDeployment);
      ghost var b1 := bytes;
      PushBool(d.warningsAsErrors);
      ghost var b2 := bytes;
      PushBool(d.watchdogs);
      WroteBoth(b, b, b1, d.warningsAsErrors, b2, d.watchdogs, bytes);
      WroteBoth(b, Both(b, b), old(bytes), d.sealedDeployment, b1, (d.warningsAsErrors, d.watchdogs), bytes);
      WroteMapped(Both(b, Both(b, b)), DiagnosticsOf, DiagnosticsParts, old(bytes), d, bytes);
    }

    // ---- profiles ----

    method PushLimits(p: Profile)
      modifies this
      ensures Wrote(Both(ModeCodec(), Both(ComptimeCodec(), MemoryCodec())), old(bytes),
        (p.mode, (p.comptime, p.memory)), bytes)
    {
      PushMode(p.mode);
      ghost var b1 := bytes;
      PushComptime(p.comptime);
      ghost var b2 := bytes;
      PushMemory(p.memory);
      ghost var limits := Both(ComptimeCodec(), MemoryCodec());
      WroteBoth(ComptimeCodec(), MemoryCodec(), b1, p.comptime, b2, p.memory, bytes);
      WroteBoth(ModeCodec(), limits, old(bytes), p.mode, b1, (p.comptime, p.memory), bytes);
    }

    method PushPolicies(p: Profile)
      modifies this
      ensures Wrote(BackCodec(), old(bytes), ProfileParts(p).1, bytes)
    {
      PushDma(p.dma);
      ghost var b1 := bytes;
      PushRecovery(p.recovery);
      ghost var b2 := bytes;
      PushRecording(p.recording);
      ghost var b3 := bytes;
      PushOptimization(p.optimization);
      ghost var b4 := bytes;
      PushDiagnostics(p.diagnostics);
      WroteBack(p, old(bytes), b1, b2, b3, b4, bytes);
    }

    method PushProfile(p: Profile, ghost rules: Rules) returns (ok: bool)
      modifies this
      ensures ok <==> |p.name| <= MAX_TEXT_BYTES
      ensures ok ==> Wrote(ProfileCodec(rules, MAX_TEXT_BYTES), old(bytes), p, bytes)
    {
      ok := PushText(p.name, rules);
      if ok {
        ghost var b1 := bytes;
        PushLimits(p);
        ghost var b2 := bytes;
        PushPolicies(p);
        WroteProfile(rules, MAX_TEXT_BYTES, p, old(bytes), b1, b2, bytes);
      }
    }

    /** The bytes that are hashed: pushed without the protocol's limit, behind a magic and a version. */
    method PushCanonical(p: Profile, ghost rules: Rules)
      modifies this
      ensures Wrote(ProfileCodec(rules, MAX_ATOM_BYTES),
        old(bytes) + PROFILE_MAGIC + NumberBytes(PROFILE_VERSION, 4), p, bytes)
    {
      bytes := bytes + PROFILE_MAGIC;
      bytes := bytes + NumberBytes(PROFILE_VERSION, 4);
      ghost var b0 := bytes;
      PushString(p.name, rules, MAX_ATOM_BYTES);
      ghost var b1 := bytes;
      PushLimits(p);
      ghost var b2 := bytes;
      PushPolicies(p);
      WroteProfile(rules, MAX_ATOM_BYTES, p, b0, b1, b2, bytes);
    }

    // ---- configurations ----

    method PushDigests(i: Identity)
      modifies this
      ensures Wrote(DigestsCodec(), old(bytes), IdentityParts(i).1.1.1, bytes)
    {
      PushDigest(i.targetPackage);
      ghost var b1 := bytes;
      PushDigest(i.standardLibrary);
      ghost var b2 := bytes;
      PushDigest(i.sourceGraph);
      ghost var b3 := bytes;
      PushDigest(i.request);
      ghost var b4 := bytes;
      PushDigest(i.profile);
      ghost var d := Raw(32);
      WroteBoth(d, d, b3, i.request, b4, i.profile, bytes);
      WroteBoth(d, Both(d, d), b2, i.sourceGraph, b3, (i.request, i.profile), bytes);
      WroteBoth(d, Both(d, Both(d, d)), b1, i.standardLibrary, b2, (i.sourceGraph, (i.request, i.profile)), bytes);
      WroteBoth(d, Both(d, Both(d, Both(d, d))), old(bytes), i.targetPackage, b1,
        (i.standardLibrary, (i.sourceGraph, (i.request, i.profile))), bytes);
    }

    method PushIdentity(i: Identity, ghost rules: Rules) returns (ok: bool)
      modifies this
      ensures ok <==> |i.target| <= MAX_TEXT_BYTES
      ensures ok ==> Wrote(IdentityCodec(rules, MAX_TEXT_BYTES), old(bytes), i, bytes)
    {
      PushDigest(i.compiler);
      ghost var b1 := bytes;
      PushNumber(LanguageTag(i.language), 1);
      ghost var b2 := bytes;
      ok := PushText(i.target, rules);
      if ok {
        ghost var b3 := bytes;
        PushDigests(i);
        WroteIdentity(rules, i, old(bytes), b1, b2, b3, bytes);
      }
    }

    method PushConfiguration(c: Configuration, ghost rules: Rules) returns (ok: bool)
      modifies this
      ensures ok <==> |c.identity.target| <= MAX_TEXT_BYTES && |c.profile.name| <= MAX_TEXT_BYTES
      ensures ok ==> Wrote(ConfigurationCodec(rules, MAX_TEXT_BYTES), old(bytes), c, bytes)
    {
      ok := PushIdentity(c.identity, rules);
      if ok {
        ghost var b1 := bytes;
        ok := PushProfile(c.profile, rules);
        if ok {
          ghost var i, p := IdentityCodec(rules, MAX_TEXT_BYTES), ProfileCodec(rules, MAX_TEXT_BYTES);
          WroteBoth(i, p, old(bytes), c.identity, b1, c.profile, bytes);
          WroteMapped(Both(i, p), ConfigurationOf, ConfigurationParts, old(bytes), c, bytes);
        }
      }
    }

    // ---- messages ----

    method PushEvidence(r: Request)
      modifies this
      ensures Wrote(EvidenceCodec(), old(bytes), (r.wirDigest, (r.runtimeDigest, r.runtimeBytes)), bytes)
    {
      PushDigest(r.wirDigest);
      ghost var b1 := bytes;
      PushDigest(r.runtimeDigest);
      ghost var b2 := bytes;
      PushNumber(r.runtimeBytes, 8);
      WroteBoth(Raw(32), Number(8), b1, r.runtimeDigest, b2, r.runtimeBytes, bytes);
      WroteBoth(Raw(32), Both(Raw(32), Number(8)), old(bytes), r.wirDigest, b1, (r.runtimeDigest, r.runtimeBytes),
        bytes);
    }

    method PushPaths(r: Request, ghost rules: Rules) returns (ok: bool)
      modifies this
      ensures ok <==> PathsFit(r)
      ensures ok ==> Wrote(PathsCodec(rules), old(bytes), (r.wir, (r.targetPackage, (r.output, r.report))), bytes)
    {
      ok := PushPath(r.wir, rules);
      if !ok { return; }
      ghost var b1 := bytes;
      ok := PushPath(r.targetPackage, rules);
      if !ok { return; }
      ghost var b2 := bytes;
      ok := PushPath(r.output, rules);
      if !ok { return; }
      ghost var b3 := bytes;
      ok := PushPath(r.report, rules);
      if ok {
        ghost var path := PathCodec(rules);
        WroteBoth(path, path, b2, r.output, b3, r.report, bytes);
        WroteBoth(path, Both(path, path), b1, r.targetPackage, b2, (r.output, r.report), bytes);
        WroteBoth(path, Both(path, Both(path, path)), old(bytes), r.wir, b1, (r.targetPackage, (r.output, r.report)),
          bytes);
      }
    }

    method PushRequest(r: Request, ghost rules: Rules) returns (ok: bool)
      modifies this
      ensures ok <==> TextsFit(r)
      ensures ok ==> Wrote(RequestCodec(rules), old(bytes), r, bytes)
    {
      PushNumber(r.id, 8);
      ghost var b1 := bytes;
      ok := PushConfiguration(r.build, rules);
      if !ok { return; }
      ghost var b2 := bytes;
      PushEvidence(r);
      ghost var b3 := bytes;
      ok := PushPaths(r, rules);
      if ok { WroteRequest(rules, r, old(bytes), b1, b2, b3, bytes); }
    }

    method PushSuccess(s: SuccessFields, ghost rules: Rules) returns (ok: bool)
      modifies this
      ensures ok <==> |s.0| <= MAX_TEXT_BYTES && |s.1.1.0| <= MAX_TEXT_BYTES
      ensures ok ==> Wrote(SuccessCodec(rules), old(bytes), s, bytes)
    {
      ok := PushPath(s.0, rules);
      if !ok { return; }
      ghost var b1 := bytes;
      PushDigest(s.1.0);
      ghost var b2 := bytes;
      ok := PushPath(s.1.1.0, rules);
      if !ok { return; }
      ghost var b3 := bytes;
      PushDigest(s.1.1.1);
      ghost var path := PathCodec(rules);
      WroteBoth(path, Raw(32), b2, s.1.1.0, b3, s.1.1.1, bytes);
      WroteBoth(Raw(32), Both(path, Raw(32)), b1, s.1.0, b2, s.1.1, bytes);
      WroteBoth(path, Both(Raw(32), Both(path, Raw(32))), old(bytes), s.0, b1, s.1, bytes);
    }

    method PushFailure(f: FailureFields, ghost rules: Rules) returns (ok: bool)
      modifies this
      ensures ok <==> |f.1| <= MAX_TEXT_BYTES
      ensures ok ==> Wrote(FailureFieldsCodec(rules), old(bytes), f, bytes)
    {
      PushNumber(FailureTag(f.0), 1);
      ghost var b1 := bytes;
      WroteMapped(Number(1), FailureOf, FailureTag, old(bytes), f.0, b1);
      ok := PushText(f.1, rules);
      if ok { WroteBoth(FailureCodec(), Text(MAX_TEXT_BYTES, rules.utf8), old(bytes), f.0, b1, f.1, bytes); }
    }

    method PushOutcome(o: Outcome, ghost rules: Rules) returns (ok: bool)
      modifies this
      ensures ok <==> OutcomeFits(o)
      ensures ok ==> Wrote(OutcomeCodec(rules), old(bytes), o, bytes)
    {
      ghost var s, f := SuccessCodec(rules), FailureFieldsCodec(rules);
      match o {
        case Success(artifact, artifactDigest, report, reportDigest) =>
          bytes := bytes + [0];
          ghost var b1 := bytes;
          ok := PushSuccess((artifact, (artifactDigest, (report, reportDigest))), rules);
          if ok { WroteFirst(s, f, old(bytes), (artifact, (artifactDigest, (report, reportDigest))), b1, bytes); }
        case Failure(kind, message) =>
          bytes := bytes + [1];
          ghost var b1 := bytes;
          ok := PushFailure((kind, message), rules);
          if ok { WroteSecond(s, f, old(bytes), (kind, message), b1, bytes); }
      }
      if ok { WroteMapped(Choice(s, f), OutcomeOf, OutcomeParts, old(bytes), o, bytes); }
    }
  }

  predicate PathsFit(r: Request)
  {
    |r.wir| <= MAX_TEXT_BYTES && |r.targetPackage| <= MAX_TEXT_BYTES
    && |r.output| <= MAX_TEXT_BYTES && |r.report| <= MAX_TEXT_BYTES
  }

  predicate TextsFit(r: Request)
  {
    |r.build.identity.target| <= MAX_TEXT_BYTES && |r.build.profile.name| <= MAX_TEXT_BYTES && PathsFit(r)
  }

  predicate OutcomeFits(o: Outcome)
  {
    match o
    case Success(a, _, b, _) => |a| <= MAX_TEXT_BYTES && |b| <= MAX_TEXT_BYTES
    case Failure(_, message) => |message| <= MAX_TEXT_BYTES
  }

  lemma {:induction false} MappedBytes<A, B>(c: Codec<A>, into: A -> Option<B>, back: B -> A, x: B)
    ensures Mapped(c, into, back).valid(x) <==> c.valid(back(x)) && into(back(x)).Some?
    ensures Mapped(c, into, back).encode(x) == c.encode(back(x))
  {
  }

  lemma {:induction false} FlaggedBytes(data: Option<Digest>)
    ensures DataCodec().encode(data)
         == match data case None => BoolCodec().encode(false)
            case Some(d) => BoolCodec().encode(true) + Raw(32).encode(d)
  {
    assert NumberBytes(0, 1) == [0 % 0x100] + NumberBytes(0 / 0x100, 0) == [0];
    assert NumberBytes(1, 1) == [1 % 0x100] + NumberBytes(1 / 0x100, 0) == [1];
    MappedBytes(Number(1), BoolOf, BoolTag, data.Some?);
    assert [0] + [] == [0];
    assert DataCodec().encode(data) == Choice(Raw(0), Raw(32)).encode(DataParts(data));
  }

  lemma {:induction false} WroteSome(before: seq<Byte>, mid: seq<Byte>, d: Digest, after: seq<Byte>)
    requires Wrote(BoolCodec(), before, true, mid) && Wrote(Raw(32), mid, d, after)
    ensures Wrote(DataCodec(), before, Some(d), after)
  {
    WroteBytes(BoolCodec(), before, true, mid);
    WroteBytes(Raw(32), mid, d, after);
    FlaggedBytes(Some(d));
    WroteBytes(DataCodec(), before, Some(d), after);
    var flag, digest := BoolCodec().encode(true), Raw(32).encode(d);
    assert before + flag + digest == before + (flag + digest);
  }

  lemma {:induction false} WroteNone(before: seq<Byte>, after: seq<Byte>)
    requires Wrote(BoolCodec(), before, false, after)
    ensures Wrote(DataCodec(), before, None, after)
  {
    WroteBytes(BoolCodec(), before, false, after);
    FlaggedBytes(None);
    WroteBytes(DataCodec(), before, None, after);
  }

  lemma {:induction false} WroteProfile(
      rules: Rules, limit: nat, p: Profile, b0: seq<Byte>, b1: seq<Byte>, b2: seq<Byte>, b3: seq<Byte>)
    requires Wrote(Text(limit, rules.utf8), b0, p.name, b1)
    requires Wrote(Both(ModeCodec(), Both(ComptimeCodec(), MemoryCodec())), b1, (p.mode, (p.comptime, p.memory)), b2)
    requires Wrote(BackCodec(), b2, ProfileParts(p).1, b3)
    ensures Wrote(ProfileCodec(rules, limit), b0, p, b3)
  {
    var limits := Both(ModeCodec(), Both(ComptimeCodec(), MemoryCodec()));
    WroteBoth(Text(limit, rules.utf8), limits, b0, p.name, b1, (p.mode, (p.comptime, p.memory)), b2);
    WroteBoth(FrontCodec(rules, limit), BackCodec(), b0, ProfileParts(p).0, b2, ProfileParts(p).1, b3);
    WroteMapped(Both(FrontCodec(rules, limit), BackCodec()), ProfileOf, ProfileParts, b0, p, b3);
  }

  lemma {:induction false} WroteBack(
      p: Profile, b0: seq<Byte>, b1: seq<Byte>, b2: seq<Byte>, b3: seq<Byte>, b4: seq<Byte>, b5: seq<Byte>)
    requires Wrote(DmaCodec(), b0, p.dma, b1) && Wrote(RecoveryCodec(), b1, p.recovery, b2)
    requires Wrote(RecordingCodec(), b2, p.recording, b3) && Wrote(OptimizationCodec(), b3, p.optimization, b4)
    requires Wrote(DiagnosticsCodec(), b4, p.diagnostics, b5)
    ensures Wrote(BackCodec(), b0, ProfileParts(p).1, b5)
  {
    var last, ends := Both(OptimizationCodec(), DiagnosticsCodec()), (p.optimization, p.diagnostics);
    var middle := Both(RecoveryCodec(), Both(RecordingCodec(), last));
    WroteBoth(OptimizationCodec(), DiagnosticsCodec(), b3, p.optimization, b4, p.diagnostics, b5);
    WroteBoth(RecordingCodec(), last, b2, p.recording, b3, ends, b5);
    WroteBoth(RecoveryCodec(), Both(RecordingCodec(), last), b1, p.recovery, b2, (p.recording, ends), b5);
    WroteBoth(DmaCodec(), middle, b0, p.dma, b1, (p.recovery, (p.recording, ends)), b5);
  }

  lemma {:induction false} CanonicalWritten(rules: Rules, p: Profile, bytes: seq<Byte>)
    requires ValidProfile(rules, p)
    requires Wrote(ProfileCodec(rules, MAX_ATOM_BYTES), [] + PROFILE_MAGIC + NumberBytes(PROFILE_VERSION, 4), p, bytes)
    ensures CanonicalBytes(rules, p) == Some(bytes)
  {
    WroteBytes(ProfileCodec(rules, MAX_ATOM_BYTES), [] + PROFILE_MAGIC + NumberBytes(PROFILE_VERSION, 4), p, bytes);
    assert [] + PROFILE_MAGIC == PROFILE_MAGIC;
  }

  /** The profile's own encoder is the function whose bytes are prefix-free. */
  method CanonicalProfile(rules: Rules, p: Profile) returns (r: Option<seq<Byte>>)
    ensures r == CanonicalBytes(rules, p)
  {
    if !ValidProfile(rules, p) { return None; }
    var writer := new Writer();
    writer.PushCanonical(p, rules);
    CanonicalWritten(rules, p, writer.bytes);
    return Some(writer.bytes);
  }

  lemma {:induction false} WroteIdentity(
      rules: Rules, i: Identity, b0: seq<Byte>, b1: seq<Byte>, b2: seq<Byte>, b3: seq<Byte>, b4: seq<Byte>)
    requires Wrote(Raw(32), b0, i.compiler, b1) && Wrote(Number(1), b1, LanguageTag(i.language), b2)
    requires Wrote(Text(MAX_TEXT_BYTES, rules.utf8), b2, i.target, b3)
    requires Wrote(DigestsCodec(), b3, IdentityParts(i).1.1.1, b4)
    ensures Wrote(IdentityCodec(rules, MAX_TEXT_BYTES), b0, i, b4)
  {
    var target, digests, parts := TargetCodec(rules, MAX_TEXT_BYTES), DigestsCodec(), IdentityParts(i);
    WroteMapped(Number(1), LanguageOf, LanguageTag, b1, i.language, b2);
    WroteMapped(Text(MAX_TEXT_BYTES, rules.utf8), TargetOf(rules), TargetText, b2, i.target, b3);
    WroteBoth(target, digests, b2, i.target, b3, parts.1.1.1, b4);
    WroteBoth(LanguageCodec(), Both(target, digests), b1, i.language, b2, parts.1.1, b4);
    WroteBoth(Raw(32), Both(LanguageCodec(), Both(target, digests)), b0, i.compiler, b1, parts.1, b4);
    WroteMapped(IdentityFieldsCodec(rules, MAX_TEXT_BYTES), IdentityOf, IdentityParts, b0, i, b4);
  }

  lemma {:induction false} WroteRequest(
      rules: Rules, r: Request, b0: seq<Byte>, b1: seq<Byte>, b2: seq<Byte>, b3: seq<Byte>, b4: seq<Byte>)
    requires Wrote(Number(8), b0, r.id, b1) && Wrote(ConfigurationCodec(rules, MAX_TEXT_BYTES), b1, r.build, b2)
    requires Wrote(EvidenceCodec(), b2, (r.wirDigest, (r.runtimeDigest, r.runtimeBytes)), b3)
    requires Wrote(PathsCodec(rules), b3, (r.wir, (r.targetPackage, (r.output, r.report))), b4)
    ensures Wrote(RequestCodec(rules), b0, r, b4)
  {
    var parts := RequestParts(r);
    var build, rest := ConfigurationCodec(rules, MAX_TEXT_BYTES), Both(EvidenceCodec(), PathsCodec(rules));
    WroteBoth(EvidenceCodec(), PathsCodec(rules), b2, parts.1.1.0, b3, parts.1.1.1, b4);
    WroteBoth(build, rest, b1, r.build, b2, parts.1.1, b4);
    WroteBoth(Number(8), Both(build, rest), b0, r.id, b1, parts.1, b4);
    WroteMapped(RequestFields(rules), RequestOf, RequestParts, b0, r, b4);
  }

  lemma {:induction false} WroteFirst<A, B>(
      a: Codec<A>, b: Codec<B>, before: seq<Byte>, x: A, mid: seq<Byte>, after: seq<Byte>)
    requires mid == before + [0] && Wrote(a, mid, x, after)
    ensures Wrote(Choice(a, b), before, First(x), after)
  {
    WroteBytes(a, mid, x, after);
    WroteBytes(Choice(a, b), before, First(x), after);
    assert before + [0] + a.encode(x) == before + ([0] + a.encode(x));
  }

  lemma {:induction false} WroteSecond<A, B>(
      a: Codec<A>, b: Codec<B>, before: seq<Byte>, y: B, mid: seq<Byte>, after: seq<Byte>)
    requires mid == before + [1] && Wrote(b, mid, y, after)
    ensures Wrote(Choice(a, b), before, Second(y), after)
  {
    WroteBytes(b, mid, y, after);
    WroteBytes(Choice(a, b), before, Second(y), after);
    assert before + [1] + b.encode(y) == before + ([1] + b.encode(y));
  }

  // ---- what the types guarantee ----

  predicate TypedPath(rules: Rules, path: seq<Byte>) { ValidPath(path) && rules.utf8(path) }

  /** 32-byte digests, paths that were checked when they were made, text that is UTF-8. */
  predicate OutcomeWellTyped(rules: Rules, o: Outcome)
  {
    match o
    case Success(a, x, b, y) => |x| == 32 && |y| == 32 && TypedPath(rules, a) && TypedPath(rules, b)
    case Failure(_, message) => rules.utf8(message)
  }

  /** The same, and numbers that fit their widths. */
  predicate ProfileTyped(rules: Rules, p: Profile)
  {
    && rules.utf8(p.name) && p.comptime.steps < Bound(8) && p.comptime.memoryBytes < Bound(8)
    && p.comptime.callDepth < Bound(4)
    && p.memory.staticBytes < Bound(8) && p.memory.peakBytes < Bound(8) && p.memory.eventLogBytes < Bound(8)
    && p.recovery.resetTimeout < Bound(8) && p.recovery.quarantineBytes < Bound(8)
    && (p.optimization.profileData.Some? ==> |p.optimization.profileData.value| == 32)
  }

  predicate IdentityTyped(rules: Rules, i: Identity)
  {
    && |i.compiler| == 32 && |i.targetPackage| == 32 && |i.standardLibrary| == 32 && |i.sourceGraph| == 32
    && |i.request| == 32 && |i.profile| == 32 && ValidAtom(rules, i.target) && rules.utf8(i.target)
  }

  predicate RequestTyped(rules: Rules, r: Request)
  {
    && r.id < Bound(8) && IdentityTyped(rules, r.build.identity) && ProfileTyped(rules, r.build.profile)
    && |r.wirDigest| == 32 && |r.runtimeDigest| == 32 && r.runtimeBytes < Bound(8)
    && TypedPath(rules, r.wir) && TypedPath(rules, r.targetPackage) && TypedPath(rules, r.output)
    && TypedPath(rules, r.report)
  }

  // ---- then only the texts' lengths decide ----

  /** The codec accepts the value; folded like `Wrote`. */
  ghost predicate Fit<T>(c: Codec<T>, x: T)
  {
    forall j {:trigger Opened(j, c, [])} :: Opened(j, c, []) ==>
      exists k {:trigger Closed(k, c, [])} :: Closed(k, c, []) && c.valid(x)
  }

  lemma {:induction false} FitValid<T>(c: Codec<T>, x: T)
    ensures Fit(c, x) <==> c.valid(x)
  {
    assert Opened(0, c, []) && Closed(0, c, []);
  }

  lemma {:induction false} FitBoth<A, B>(a: Codec<A>, b: Codec<B>, x: A, y: B)
    ensures Fit(Both(a, b), (x, y)) <==> Fit(a, x) && Fit(b, y)
  {
    FitValid(a, x);
    FitValid(b, y);
    FitValid(Both(a, b), (x, y));
  }

  lemma {:induction false} FitMapped<A, B>(c: Codec<A>, into: A -> Option<B>, back: B -> A, x: B)
    requires into(back(x)).Some?
    ensures Fit(Mapped(c, into, back), x) <==> Fit(c, back(x))
  {
    FitValid(c, back(x));
    FitValid(Mapped(c, into, back), x);
  }

  lemma {:induction false} NumberFits(k: nat, n: nat)
    ensures Fit(Number(k), n) <==> n < Bound(k)
  {
    FitValid(Number(k), n);
  }

  lemma {:induction false} DigestFits(d: Digest)
    ensures Fit(Raw(32), d) <==> |d| == 32
  {
    FitValid(Raw(32), d);
  }

  lemma {:induction false} TagFits<T>(into: nat -> Option<T>, back: T -> nat, x: T)
    requires into(back(x)).Some? && back(x) < 0x100
    ensures Fit(Mapped(Number(1), into, back), x)
  {
    assert Bound(1) == 0x100 * Bound(0) == 0x100;
    NumberFits(1, back(x));
    FitMapped(Number(1), into, back, x);
  }

  lemma {:induction false} TextFits(rules: Rules, text: seq<Byte>)
    requires rules.utf8(text)
    ensures Fit(Text(MAX_TEXT_BYTES, rules.utf8), text) <==> |text| <= MAX_TEXT_BYTES
  {
    Lengths();
    FitValid(Text(MAX_TEXT_BYTES, rules.utf8), text);
  }

  lemma {:induction false} PathFits(rules: Rules, path: seq<Byte>)
    requires TypedPath(rules, path)
    ensures Fit(PathCodec(rules), path) <==> |path| <= MAX_TEXT_BYTES
  {
    TextFits(rules, path);
    FitMapped(Text(MAX_TEXT_BYTES, rules.utf8), PathOf, PathText, path);
  }

  lemma {:induction false} FlagsFit(a: bool, b: bool)
    ensures Fit(BoolCodec(), a) && Fit(Both(BoolCodec(), BoolCodec()), (a, b))
  {
    TagFits(BoolOf, BoolTag, a);
    TagFits(BoolOf, BoolTag, b);
    FitBoth(BoolCodec(), BoolCodec(), a, b);
  }

  lemma {:induction false} ComptimeFits(c: Comptime)
    requires c.steps < Bound(8) && c.memoryBytes < Bound(8) && c.callDepth < Bound(4)
    ensures Fit(ComptimeCodec(), c)
  {
    NumberFits(8, c.steps);
    NumberFits(8, c.memoryBytes);
    NumberFits(4, c.callDepth);
    FitBoth(Number(8), Number(4), c.memoryBytes, c.callDepth);
    FitBoth(Number(8), Both(Number(8), Number(4)), c.steps, (c.memoryBytes, c.callDepth));
    FitMapped(Both(Number(8), Both(Number(8), Number(4))), ComptimeOf, ComptimeParts, c);
  }

  lemma {:induction false} MemoryFits(m: Memory)
    requires m.staticBytes < Bound(8) && m.peakBytes < Bound(8) && m.eventLogBytes < Bound(8)
    ensures Fit(MemoryCodec(), m)
  {
    NumberFits(8, m.staticBytes);
    NumberFits(8, m.peakBytes);
    NumberFits(8, m.eventLogBytes);
    FitBoth(Number(8), Number(8), m.peakBytes, m.eventLogBytes);
    FitBoth(Number(8), Both(Number(8), Number(8)), m.staticBytes, (m.peakBytes, m.eventLogBytes));
    FitMapped(Both(Number(8), Both(Number(8), Number(8))), MemoryOf, MemoryParts, m);
  }

  lemma {:induction false} PoliciesFit(d: Dma, r: Recovery, g: Diagnostics)
    requires r.resetTimeout < Bound(8) && r.quarantineBytes < Bound(8)
    ensures Fit(DmaCodec(), d) && Fit(RecoveryCodec(), r) && Fit(DiagnosticsCodec(), g)
  {
    var b := BoolCodec();
    FlagsFit(d.coherent, d.requireIommu);
    FitMapped(Both(b, b), DmaOf, DmaParts, d);
    NumberFits(8, r.resetTimeout);
    NumberFits(8, r.quarantineBytes);
    FitBoth(Number(8), Number(8), r.resetTimeout, r.quarantineBytes);
    FitMapped(Both(Number(8), Number(8)), RecoveryOf, RecoveryParts, r);
    FlagsFit(g.sealedDeployment, g.sealedDeployment);
    FlagsFit(g.warningsAsErrors, g.watchdogs);
    FitBoth(b, Both(b, b), g.sealedDeployment, (g.warningsAsErrors, g.watchdogs));
    FitMapped(Both(b, Both(b, b)), DiagnosticsOf, DiagnosticsParts, g);
  }

  lemma {:induction false} OptimizationFits(o: Optimization)
    requires o.profileData.Some? ==> |o.profileData.value| == 32
    ensures Fit(OptimizationCodec(), o)
  {
    TagFits(LevelOf, LevelTag, o.level);
    FitValid(Choice(Raw(0), Raw(32)), DataParts(o.profileData));
    FitMapped(Choice(Raw(0), Raw(32)), DataOf, DataParts, o.profileData);
    FitBoth(LevelCodec(), DataCodec(), o.level, o.profileData);
    FitMapped(Both(LevelCodec(), DataCodec()), OptimizationOf, OptimizationParts, o);
  }

  lemma {:induction false} FrontFits(rules: Rules, p: Profile)
    requires ProfileTyped(rules, p)
    ensures Fit(FrontCodec(rules, MAX_TEXT_BYTES), ProfileParts(p).0) <==> |p.name| <= MAX_TEXT_BYTES
  {
    var limits, text := Both(ComptimeCodec(), MemoryCodec()), Text(MAX_TEXT_BYTES, rules.utf8);
    TextFits(rules, p.name);
    TagFits(ModeOf, ModeTag, p.mode);
    ComptimeFits(p.comptime);
    MemoryFits(p.memory);
    FitBoth(ComptimeCodec(), MemoryCodec(), p.comptime, p.memory);
    FitBoth(ModeCodec(), limits, p.mode, (p.comptime, p.memory));
    FitBoth(text, Both(ModeCodec(), limits), p.name, (p.mode, (p.comptime, p.memory)));
  }

  lemma {:induction false} BackFits(rules: Rules, p: Profile)
    requires ProfileTyped(rules, p)
    ensures Fit(BackCodec(), ProfileParts(p).1)
  {
    TagFits(RecordingOf, RecordingTag, p.recording);
    PoliciesFit(p.dma, p.recovery, p.diagnostics);
    OptimizationFits(p.optimization);
    var last, ends := Both(OptimizationCodec(), DiagnosticsCodec()), (p.optimization, p.diagnostics);
    FitBoth(OptimizationCodec(), DiagnosticsCodec(), p.optimization, p.diagnostics);
    FitBoth(RecordingCodec(), last, p.recording, ends);
    FitBoth(RecoveryCodec(), Both(RecordingCodec(), last), p.recovery, (p.recording, ends));
    FitBoth(DmaCodec(), Both(RecoveryCodec(), Both(RecordingCodec(), last)), p.dma, (p.recovery, (p.recording, ends)));
  }

  lemma {:induction false} ProfileFits(rules: Rules, p: Profile)
    requires ProfileTyped(rules, p)
    ensures Fit(ProfileCodec(rules, MAX_TEXT_BYTES), p) <==> |p.name| <= MAX_TEXT_BYTES
  {
    FrontFits(rules, p);
    BackFits(rules, p);
    FitBoth(FrontCodec(rules, MAX_TEXT_BYTES), BackCodec(), ProfileParts(p).0, ProfileParts(p).1);
    FitMapped(Both(FrontCodec(rules, MAX_TEXT_BYTES), BackCodec()), ProfileOf, ProfileParts, p);
  }

  lemma {:induction false} DigestsFit(i: Identity)
    requires |i.targetPackage| == 32 && |i.standardLibrary| == 32 && |i.sourceGraph| == 32 && |i.request| == 32
    requires |i.profile| == 32
    ensures Fit(DigestsCodec(), IdentityParts(i).1.1.1)
  {
    var d := Raw(32);
    DigestFits(i.targetPackage);
    DigestFits(i.standardLibrary);
    DigestFits(i.sourceGraph);
    DigestFits(i.request);
    DigestFits(i.profile);
    FitBoth(d, d, i.request, i.profile);
    FitBoth(d, Both(d, d), i.sourceGraph, (i.request, i.profile));
    FitBoth(d, Both(d, Both(d, d)), i.standardLibrary, (i.sourceGraph, (i.request, i.profile)));
    FitBoth(d, Both(d, Both(d, Both(d, d))), i.targetPackage,
      (i.standardLibrary, (i.sourceGraph, (i.request, i.profile))));
  }

  lemma {:induction false} IdentityFits(rules: Rules, i: Identity)
    requires IdentityTyped(rules, i)
    ensures Fit(IdentityCodec(rules, MAX_TEXT_BYTES), i) <==> |i.target| <= MAX_TEXT_BYTES
  {
    var target, digests, parts := TargetCodec(rules, MAX_TEXT_BYTES), DigestsCodec(), IdentityParts(i);
    DigestFits(i.compiler);
    DigestsFit(i);
    TagFits(LanguageOf, LanguageTag, i.language);
    TextFits(rules, i.target);
    FitMapped(Text(MAX_TEXT_BYTES, rules.utf8), TargetOf(rules), TargetText, i.target);
    FitBoth(target, digests, i.target, parts.1.1.1);
    FitBoth(LanguageCodec(), Both(target, digests), i.language, parts.1.1);
    FitBoth(Raw(32), Both(LanguageCodec(), Both(target, digests)), i.compiler, parts.1);
    FitMapped(IdentityFieldsCodec(rules, MAX_TEXT_BYTES), IdentityOf, IdentityParts, i);
  }

  lemma {:induction false} ConfigurationFits(rules: Rules, c: Configuration)
    requires IdentityTyped(rules, c.identity) && ProfileTyped(rules, c.profile)
    ensures Fit(ConfigurationCodec(rules, MAX_TEXT_BYTES), c)
       <==> |c.identity.target| <= MAX_TEXT_BYTES && |c.profile.name| <= MAX_TEXT_BYTES
  {
    var i, p := IdentityCodec(rules, MAX_TEXT_BYTES), ProfileCodec(rules, MAX_TEXT_BYTES);
    IdentityFits(rules, c.identity);
    ProfileFits(rules, c.profile);
    FitBoth(i, p, c.identity, c.profile);
    FitMapped(Both(i, p), ConfigurationOf, ConfigurationParts, c);
  }

  lemma {:induction false} PathsFitExactly(rules: Rules, r: Request)
    requires RequestTyped(rules, r)
    ensures Fit(PathsCodec(rules), RequestParts(r).1.1.1) <==> PathsFit(r)
  {
    var path := PathCodec(rules);
    PathFits(rules, r.wir);
    PathFits(rules, r.targetPackage);
    PathFits(rules, r.output);
    PathFits(rules, r.report);
    FitBoth(path, path, r.output, r.report);
    FitBoth(path, Both(path, path), r.targetPackage, (r.output, r.report));
    FitBoth(path, Both(path, Both(path, path)), r.wir, (r.targetPackage, (r.output, r.report)));
  }

  lemma {:induction false} EvidenceFits(r: Request)
    requires |r.wirDigest| == 32 && |r.runtimeDigest| == 32 && r.runtimeBytes < Bound(8)
    ensures Fit(EvidenceCodec(), RequestParts(r).1.1.0)
  {
    DigestFits(r.wirDigest);
    DigestFits(r.runtimeDigest);
    NumberFits(8, r.runtimeBytes);
    FitBoth(Raw(32), Number(8), r.runtimeDigest, r.runtimeBytes);
    FitBoth(Raw(32), Both(Raw(32), Number(8)), r.wirDigest, (r.runtimeDigest, r.runtimeBytes));
  }

  lemma {:induction false} RequestFits(rules: Rules, r: Request)
    requires RequestTyped(rules, r)
    ensures Fit(RequestCodec(rules), r) <==> TextsFit(r)
  {
    var parts := RequestParts(r);
    var build, rest := ConfigurationCodec(rules, MAX_TEXT_BYTES), Both(EvidenceCodec(), PathsCodec(rules));
    NumberFits(8, r.id);
    ConfigurationFits(rules, r.build);
    EvidenceFits(r);
    PathsFitExactly(rules, r);
    FitBoth(EvidenceCodec(), PathsCodec(rules), parts.1.1.0, parts.1.1.1);
    FitBoth(build, rest, r.build, parts.1.1);
    FitBoth(Number(8), Both(build, rest), r.id, parts.1);
    FitMapped(RequestFields(rules), RequestOf, RequestParts, r);
  }

  lemma {:induction false} SuccessFits(rules: Rules, s: SuccessFields)
    requires TypedPath(rules, s.0) && |s.1.0| == 32 && TypedPath(rules, s.1.1.0) && |s.1.1.1| == 32
    ensures Fit(SuccessCodec(rules), s) <==> |s.0| <= MAX_TEXT_BYTES && |s.1.1.0| <= MAX_TEXT_BYTES
  {
    var path := PathCodec(rules);
    PathFits(rules, s.0);
    DigestFits(s.1.0);
    PathFits(rules, s.1.1.0);
    DigestFits(s.1.1.1);
    FitBoth(path, Raw(32), s.1.1.0, s.1.1.1);
    FitBoth(Raw(32), Both(path, Raw(32)), s.1.0, s.1.1);
    FitBoth(path, Both(Raw(32), Both(path, Raw(32))), s.0, s.1);
  }

  lemma {:induction false} FailureFits(rules: Rules, f: FailureFields)
    requires rules.utf8(f.1)
    ensures Fit(FailureFieldsCodec(rules), f) <==> |f.1| <= MAX_TEXT_BYTES
  {
    TagFits(FailureOf, FailureTag, f.0);
    TextFits(rules, f.1);
    FitBoth(FailureCodec(), Text(MAX_TEXT_BYTES, rules.utf8), f.0, f.1);
  }

  lemma {:induction false} FitChoice<A, B>(a: Codec<A>, b: Codec<B>, x: Either<A, B>)
    ensures Fit(Choice(a, b), x) <==> match x case First(v) => Fit(a, v) case Second(v) => Fit(b, v)
  {
    FitValid(Choice(a, b), x);
    match x
    case First(v) => FitValid(a, v);
    case Second(v) => FitValid(b, v);
  }

  lemma {:induction false} OutcomeFitsExactly(rules: Rules, o: Outcome)
    requires OutcomeWellTyped(rules, o)
    ensures Fit(OutcomeCodec(rules), o) <==> OutcomeFits(o)
  {
    var s, f := SuccessCodec(rules), FailureFieldsCodec(rules);
    FitMapped(Choice(s, f), OutcomeOf, OutcomeParts, o);
    FitChoice(s, f, OutcomeParts(o));
    match o
    case Success(_, _, _, _) => SuccessFits(rules, OutcomeParts(o).a);
    case Failure(_, _) => FailureFits(rules, OutcomeParts(o).b);
  }

  lemma {:induction false} ResponseFits(rules: Rules, r: Response)
    requires r.id < Bound(8) && OutcomeWellTyped(rules, r.outcome)
    ensures Fit(ResponseCodec(rules), r) <==> OutcomeFits(r.outcome)
  {
    OutcomeFitsExactly(rules, r.outcome);
    NumberFits(8, r.id);
    FitBoth(Number(8), OutcomeCodec(rules), r.id, r.outcome);
    FitMapped(Both(Number(8), OutcomeCodec(rules)), ResponseOf, ResponseParts, r);
  }

  // ---- the two messages ----

  lemma {:induction false} MessageWritten<T>(
      c: Codec<T>, kind: Byte, accept: T -> bool, x: T, fits: bool, bytes: seq<Byte>)
    requires (Fit(c, x) <==> fits) && (fits ==> Wrote(c, [], x, bytes))
    ensures EncodeMessage(c, kind, accept, x) == if fits && accept(x) then Frame(kind, bytes) else None
  {
    FitValid(c, x);
    if fits {
      WroteBytes(c, [], x, bytes);
      assert [] + c.encode(x) == c.encode(x);
    }
  }

  method WriteResponse(rules: Rules, response: Response) returns (r: Option<seq<Byte>>)
    requires response.id < Bound(8) && OutcomeWellTyped(rules, response.outcome)
    ensures r == EncodeResponse(rules, response)
  {
    var writer := new Writer();
    writer.PushNumber(response.id, 8);
    ghost var b1 := writer.bytes;
    var ok := writer.PushOutcome(response.outcome, rules);
    ghost var outcome := OutcomeCodec(rules);
    ResponseFits(rules, response);
    if ok {
      WroteBoth(Number(8), outcome, [], response.id, b1, response.outcome, writer.bytes);
      WroteMapped(Both(Number(8), outcome), ResponseOf, ResponseParts, [], response, writer.bytes);
    }
    MessageWritten(ResponseCodec(rules), RESPONSE, Always(), response, ok, writer.bytes);
    return if ok then Frame(RESPONSE, writer.bytes) else None;
  }

  /** The build must be the sealed one, the profile valid and the evidence present before anything is
      pushed. */
  method WriteRequest(rules: Rules, request: Request, sealed: Configuration) returns (r: Option<seq<Byte>>)
    requires RequestTyped(rules, request)
    ensures r == EncodeRequest(rules, request, sealed)
  {
    if request.build != sealed { return None; }
    if !Acceptable(rules)(request) { return None; }
    var writer := new Writer();
    var ok := writer.PushRequest(request, rules);
    RequestFits(rules, request);
    MessageWritten(RequestCodec(rules), REQUEST, Acceptable(rules), request, ok, writer.bytes);
    return if ok then Frame(REQUEST, writer.bytes) else None;
  }
}

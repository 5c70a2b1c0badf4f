/** Build profiles and identities, their validation and their encoding. Text is a sequence of bytes
    that satisfies `utf8`; the character test of an atom is the parameter `plain`. */
module BuildModel {
  import opened Wrappers
  import opened Octets
  import opened Codec

  type Digest = seq<Byte>

  /** What decides whether bytes are text and whether text is free of control characters, white space
      and the separators of an atom. */
  datatype Rules = Rules(utf8: seq<Byte> -> bool, plain: seq<Byte> -> bool)

  datatype Mode = DevelopmentMode | ReleaseMode
  datatype Recording = Disabled | Record | Replay
  datatype Level = NoOptimization | DevelopmentLevel | PerformanceLevel | SizeLevel

  datatype Comptime = Comptime(steps: nat, memoryBytes: nat, callDepth: nat)
  datatype Memory = Memory(staticBytes: nat, peakBytes: nat, eventLogBytes: nat)
  datatype Dma = Dma(coherent: bool, requireIommu: bool)
  datatype Recovery = Recovery(resetTimeout: nat, quarantineBytes: nat)
  datatype Optimization = Optimization(level: Level, profileData: Option<Digest>)
  datatype Diagnostics = Diagnostics(sealedDeployment: bool, warningsAsErrors: bool, watchdogs: bool)

  datatype Profile = Profile(
    name: seq<Byte>, mode: Mode, comptime: Comptime, memory: Memory, dma: Dma, recovery: Recovery,
    recording: Recording, optimization: Optimization, diagnostics: Diagnostics)

  datatype Language = Design01

  datatype Identity = Identity(
    compiler: Digest, language: Language, target: seq<Byte>, targetPackage: Digest, standardLibrary: Digest,
    sourceGraph: Digest,
    request: Digest, profile: Digest)

  datatype Configuration = Configuration(identity: Identity, profile: Profile)

  const MAX_ATOM_BYTES: nat := 4096
  const PROFILE_VERSION: nat := 2
  /** "WRELPRF" and a zero byte */
  const PROFILE_MAGIC: seq<Byte> := [0x57, 0x52, 0x45, 0x4c, 0x50, 0x52, 0x46, 0]

  // ---- validation ----

  predicate ValidAtom(rules: Rules, t: seq<Byte>) { 0 < |t| <= MAX_ATOM_BYTES && rules.plain(t) }

  predicate ValidProfile(rules: Rules, p: Profile)
  {
    && ValidAtom(rules, p.name)
    && p.comptime.steps != 0 && p.comptime.memoryBytes != 0 && p.comptime.callDepth != 0
    && p.memory.staticBytes != 0 && p.memory.peakBytes >= p.memory.staticBytes
    && p.recovery.resetTimeout != 0
    && (p.recording == Disabled || p.memory.eventLogBytes != 0)
  }

  predicate AllZero(d: Digest) { forall k :: 0 <= k < |d| ==> d[k] == 0 }

  /** Sealing: the profile is valid, its observed digest is the one recorded, and no digest is zero. */
  predicate Seals(rules: Rules, c: Configuration, observed: Digest)
  {
    && ValidProfile(rules, c.profile) && c.identity.profile == observed
    && !AllZero(c.identity.compiler) && !AllZero(c.identity.targetPackage) && !AllZero(c.identity.standardLibrary)
    && !AllZero(c.identity.sourceGraph) && !AllZero(c.identity.request) && !AllZero(c.identity.profile)
  }

  // ---- scalar codecs ----

  function BoolOf(n: nat): Option<bool> { if n == 0 then Some(false) else if n == 1 then Some(true) else None }
  function BoolTag(b: bool): nat { if b then 1 else 0 }
  function BoolCodec(): Codec<bool> { Mapped(Number(1), BoolOf, BoolTag) }

  function ModeOf(n: nat): Option<Mode>
  {
    if n == 1 then Some(DevelopmentMode) else if n == 2 then Some(ReleaseMode) else None
  }

  function ModeTag(m: Mode): nat { match m case DevelopmentMode => 1 case ReleaseMode => 2 }
  function ModeCodec(): Codec<Mode> { Mapped(Number(1), ModeOf, ModeTag) }

  function RecordingOf(n: nat): Option<Recording>
  {
    if n == 0 then Some(Disabled) else if n == 1 then Some(Record) else if n == 2 then Some(Replay) else None
  }

  function RecordingTag(r: Recording): nat { match r case Disabled => 0 case Record => 1 case Replay => 2 }
  function RecordingCodec(): Codec<Recording> { Mapped(Number(1), RecordingOf, RecordingTag) }

  function LevelOf(n: nat): Option<Level>
  {
    if n == 0 then Some(NoOptimization) else if n == 1 then Some(DevelopmentLevel)
    else if n == 2 then Some(PerformanceLevel) else if n == 3 then Some(SizeLevel) else None
  }

  function LevelTag(l: Level): nat
  {
    match l case NoOptimization => 0 case DevelopmentLevel => 1 case PerformanceLevel => 2 case SizeLevel => 3
  }

  function LevelCodec(): Codec<Level> { Mapped(Number(1), LevelOf, LevelTag) }

  lemma {:induction false} ScalarsExact()
    ensures Exact(BoolCodec()) && Exact(ModeCodec()) && Exact(RecordingCodec()) && Exact(LevelCodec())
    ensures Exact(Number(4)) && Exact(Number(8)) && Exact(Raw(32))
  {
    NumberExact(1);
    NumberExact(4);
    NumberExact(8);
    RawExact(32);
    MappedExact(Number(1), BoolOf, BoolTag);
    MappedExact(Number(1), ModeOf, ModeTag);
    MappedExact(Number(1), RecordingOf, RecordingTag);
    MappedExact(Number(1), LevelOf, LevelTag);
  }

  // ---- the groups of a profile ----

  function ComptimeOf(x: (nat, (nat, nat))): Option<Comptime> { Some(Comptime(x.0, x.1.0, x.1.1)) }
  function ComptimeParts(c: Comptime): (nat, (nat, nat)) { (c.steps, (c.memoryBytes, c.callDepth)) }
  function ComptimeCodec(): Codec<Comptime>
  {
    Mapped(Both(Number(8), Both(Number(8), Number(4))), ComptimeOf, ComptimeParts)
  }

  function MemoryOf(x: (nat, (nat, nat))): Option<Memory> { Some(Memory(x.0, x.1.0, x.1.1)) }
  function MemoryParts(m: Memory): (nat, (nat, nat)) { (m.staticBytes, (m.peakBytes, m.eventLogBytes)) }
  function MemoryCodec(): Codec<Memory>
  {
    Mapped(Both(Number(8), Both(Number(8), Number(8))), MemoryOf, MemoryParts)
  }

  function DmaOf(x: (bool, bool)): Option<Dma> { Some(Dma(x.0, x.1)) }
  function DmaParts(d: Dma): (bool, bool) { (d.coherent, d.requireIommu) }
  function DmaCodec(): Codec<Dma> { Mapped(Both(BoolCodec(), BoolCodec()), DmaOf, DmaParts) }

  function RecoveryOf(x: (nat, nat)): Option<Recovery> { Some(Recovery(x.0, x.1)) }
  function RecoveryParts(r: Recovery): (nat, nat) { (r.resetTimeout, r.quarantineBytes) }
  function RecoveryCodec(): Codec<Recovery> { Mapped(Both(Number(8), Number(8)), RecoveryOf, RecoveryParts) }

  function DataOf(x: Either<seq<Byte>, Digest>): Option<Option<Digest>>
  {
    match x case First(nothing) => (if nothing == [] then Some(None) else None) case Second(d) => Some(Some(d))
  }

  function DataParts(d: Option<Digest>): Either<seq<Byte>, Digest>
  {
    match d case None => First([]) case Some(x) => Second(x)
  }

  function DataCodec(): Codec<Option<Digest>> { Mapped(Choice(Raw(0), Raw(32)), DataOf, DataParts) }

  function OptimizationOf(x: (Level, Option<Digest>)): Option<Optimization> { Some(Optimization(x.0, x.1)) }
  function OptimizationParts(o: Optimization): (Level, Option<Digest>) { (o.level, o.profileData) }
  function OptimizationCodec(): Codec<Optimization>
  {
    Mapped(Both(LevelCodec(), DataCodec()), OptimizationOf, OptimizationParts)
  }

  function DiagnosticsOf(x: (bool, (bool, bool))): Option<Diagnostics> { Some(Diagnostics(x.0, x.1.0, x.1.1)) }
  function DiagnosticsParts(d: Diagnostics): (bool, (bool, bool))
  {
    (d.sealedDeployment, (d.warningsAsErrors, d.watchdogs))
  }

  function DiagnosticsCodec(): Codec<Diagnostics>
  {
    Mapped(Both(BoolCodec(), Both(BoolCodec(), BoolCodec())), DiagnosticsOf, DiagnosticsParts)
  }

  lemma {:induction false} NumberGroupsExact()
    ensures Exact(ComptimeCodec()) && Exact(MemoryCodec()) && Exact(RecoveryCodec())
  {
    ScalarsExact();
    BothExact(Number(8), Number(4));
    BothExact(Number(8), Number(8));
    BothExact(Number(8), Both(Number(8), Number(4)));
    BothExact(Number(8), Both(Number(8), Number(8)));
    MappedExact(Both(Number(8), Both(Number(8), Number(4))), ComptimeOf, ComptimeParts);
    MappedExact(Both(Number(8), Both(Number(8), Number(8))), MemoryOf, MemoryParts);
    MappedExact(Both(Number(8), Number(8)), RecoveryOf, RecoveryParts);
  }

  lemma {:induction false} FlagGroupsExact()
    ensures Exact(DmaCodec()) && Exact(DiagnosticsCodec()) && Exact(OptimizationCodec())
  {
    ScalarsExact();
    RawExact(0);
    var b := BoolCodec();
    BothExact(b, b);
    BothExact(b, Both(b, b));
    MappedExact(Both(b, b), DmaOf, DmaParts);
    MappedExact(Both(b, Both(b, b)), DiagnosticsOf, DiagnosticsParts);
    ChoiceExact(Raw(0), Raw(32));
    MappedExact(Choice(Raw(0), Raw(32)), DataOf, DataParts);
    BothExact(LevelCodec(), DataCodec());
    MappedExact(Both(LevelCodec(), DataCodec()), OptimizationOf, OptimizationParts);
  }

  // ---- profiles ----

  type FrontFields = (seq<Byte>, (Mode, (Comptime, Memory)))
  type BackFields = (Dma, (Recovery, (Recording, (Optimization, Diagnostics))))

  function ProfileOf(x: (FrontFields, BackFields)): Option<Profile>
  {
    Some(Profile(x.0.0, x.0.1.0, x.0.1.1.0, x.0.1.1.1, x.1.0, x.1.1.0, x.1.1.1.0, x.1.1.1.1.0, x.1.1.1.1.1))
  }

  function ProfileParts(p: Profile): (FrontFields, BackFields)
  {
    ((p.name, (p.mode, (p.comptime, p.memory))), (p.dma, (p.recovery, (p.recording, (p.optimization, p.diagnostics)))))
  }

  function FrontCodec(rules: Rules, limit: nat): Codec<FrontFields>
  {
    Both(Text(limit, rules.utf8), Both(ModeCodec(), Both(ComptimeCodec(), MemoryCodec())))
  }

  function BackCodec(): Codec<BackFields>
  {
    Both(DmaCodec(), Both(RecoveryCodec(), Both(RecordingCodec(), Both(OptimizationCodec(), DiagnosticsCodec()))))
  }

  /** The fields of a profile in their order on the wire; `limit` bounds the name. */
  function ProfileCodec(rules: Rules, limit: nat): Codec<Profile>
  {
    Mapped(Both(FrontCodec(rules, limit), BackCodec()), ProfileOf, ProfileParts)
  }

  lemma {:induction false} ProfileExact(rules: Rules, limit: nat)
    ensures Exact(ProfileCodec(rules, limit))
  {
    ScalarsExact();
    NumberGroupsExact();
    FlagGroupsExact();
    TextExact(limit, rules.utf8);
    BothExact(ComptimeCodec(), MemoryCodec());
    BothExact(ModeCodec(), Both(ComptimeCodec(), MemoryCodec()));
    BothExact(Text(limit, rules.utf8), Both(ModeCodec(), Both(ComptimeCodec(), MemoryCodec())));
    BothExact(OptimizationCodec(), DiagnosticsCodec());
    BothExact(RecordingCodec(), Both(OptimizationCodec(), DiagnosticsCodec()));
    BothExact(RecoveryCodec(), Both(RecordingCodec(), Both(OptimizationCodec(), DiagnosticsCodec())));
    BothExact(DmaCodec(), Both(RecoveryCodec(), Both(RecordingCodec(), Both(OptimizationCodec(), DiagnosticsCodec()))));
    BothExact(FrontCodec(rules, limit), BackCodec());
    MappedExact(Both(FrontCodec(rules, limit), BackCodec()), ProfileOf, ProfileParts);
  }

  /** Numbers fit their widths, digests have 32 bytes, names are text: what the types guarantee. */
  predicate WellTyped(rules: Rules, p: Profile) { ProfileCodec(rules, MAX_ATOM_BYTES).valid(p) }

  /** The bytes hashed into a build identity: a magic, a version and every field. */
  function CanonicalBytes(rules: Rules, p: Profile): Option<seq<Byte>>
  {
    if ValidProfile(rules, p)
    then Some(PROFILE_MAGIC + NumberBytes(PROFILE_VERSION, 4) + ProfileCodec(rules, MAX_ATOM_BYTES).encode(p))
    else None
  }

  /** The profile encoding is injective and prefix-free: if the bytes of one profile begin with those
      of another, the profiles are equal in every field and nothing follows. */
  lemma {:induction false} CanonicalPrefixFree(rules: Rules, p: Profile, q: Profile, tail: seq<Byte>)
    requires WellTyped(rules, p) && WellTyped(rules, q) && CanonicalBytes(rules, p).Some?
    requires CanonicalBytes(rules, q).Some?
    requires CanonicalBytes(rules, q).value == CanonicalBytes(rules, p).value + tail
    ensures p == q && tail == []
  {
    var c, head := ProfileCodec(rules, MAX_ATOM_BYTES), PROFILE_MAGIC + NumberBytes(PROFILE_VERSION, 4);
    ProfileExact(rules, MAX_ATOM_BYTES);
    SameTail(head, c.encode(q), c.encode(p), tail);
    PrefixFree(c, p, q, tail);
  }

  lemma {:induction false} SameTail(head: seq<Byte>, a: seq<Byte>, b: seq<Byte>, tail: seq<Byte>)
    requires head + a == head + b + tail
    ensures a == b + tail
  {
    assert (head + a)[|head|..] == a && (head + b + tail)[|head|..] == b + tail;
  }

  // ---- identities and configurations ----

  type Digests = (Digest, (Digest, (Digest, (Digest, Digest))))
  type IdentityFields = (Digest, (Language, (seq<Byte>, Digests)))

  function LanguageOf(n: nat): Option<Language> { if n == 1 then Some(Design01) else None }
  function LanguageTag(l: Language): nat { match l case Design01 => 1 }
  function LanguageCodec(): Codec<Language> { Mapped(Number(1), LanguageOf, LanguageTag) }

  /** The target is an atom. */
  function TargetOf(rules: Rules): seq<Byte> -> Option<seq<Byte>>
  {
    (t: seq<Byte>) => if ValidAtom(rules, t) then Some(t) else None
  }

  function TargetText(t: seq<Byte>): seq<Byte> { t }
  function TargetCodec(rules: Rules, limit: nat): Codec<seq<Byte>>
  {
    Mapped(Text(limit, rules.utf8), TargetOf(rules), TargetText)
  }

  function DigestsCodec(): Codec<Digests> { Both(Raw(32), Both(Raw(32), Both(Raw(32), Both(Raw(32), Raw(32))))) }

  function IdentityOf(x: IdentityFields): Option<Identity>
  {
    Some(Identity(x.0, x.1.0, x.1.1.0, x.1.1.1.0, x.1.1.1.1.0, x.1.1.1.1.1.0, x.1.1.1.1.1.1.0, x.1.1.1.1.1.1.1))
  }

  function IdentityParts(i: Identity): IdentityFields
  {
    (i.compiler, (i.language, (i.target, (i.targetPackage,
     (i.standardLibrary, (i.sourceGraph, (i.request, i.profile)))))))
  }

  function IdentityFieldsCodec(rules: Rules, limit: nat): Codec<IdentityFields>
  {
    Both(Raw(32), Both(LanguageCodec(), Both(TargetCodec(rules, limit), DigestsCodec())))
  }

  function IdentityCodec(rules: Rules, limit: nat): Codec<Identity>
  {
    Mapped(IdentityFieldsCodec(rules, limit), IdentityOf, IdentityParts)
  }

  lemma {:induction false} DigestsExact()
    ensures Exact(Raw(32)) && Exact(DigestsCodec())
  {
    var r := Raw(32);
    RawExact(32);
    BothExact(r, r);
    BothExact(r, Both(r, r));
    BothExact(r, Both(r, Both(r, r)));
    BothExact(r, Both(r, Both(r, Both(r, r))));
  }

  lemma {:induction false} TargetExact(rules: Rules, limit: nat)
    ensures Exact(LanguageCodec()) && Exact(TargetCodec(rules, limit))
  {
    NumberExact(1);
    TextExact(limit, rules.utf8);
    forall n: nat | LanguageOf(n).Some? ensures LanguageTag(LanguageOf(n).value) == n { }
    forall l ensures LanguageOf(LanguageTag(l)) == Some(l) { assert l == Design01; }
    MappedExact(Number(1), LanguageOf, LanguageTag);
    MappedExact(Text(limit, rules.utf8), TargetOf(rules), TargetText);
  }

  lemma {:induction false} IdentityExact(rules: Rules, limit: nat)
    ensures Exact(IdentityCodec(rules, limit))
  {
    var language, target, digests := LanguageCodec(), TargetCodec(rules, limit), DigestsCodec();
    DigestsExact();
    TargetExact(rules, limit);
    BothExact(target, digests);
    BothExact(language, Both(target, digests));
    BothExact(Raw(32), Both(language, Both(target, digests)));
    MappedExact(IdentityFieldsCodec(rules, limit), IdentityOf, IdentityParts);
  }

  function ConfigurationOf(x: (Identity, Profile)): Option<Configuration> { Some(Configuration(x.0, x.1)) }
  function ConfigurationParts(c: Configuration): (Identity, Profile) { (c.identity, c.profile) }

  function ConfigurationCodec(rules: Rules, limit: nat): Codec<Configuration>
  {
    Mapped(Both(IdentityCodec(rules, limit), ProfileCodec(rules, limit)), ConfigurationOf, ConfigurationParts)
  }

  lemma {:induction false} ConfigurationExact(rules: Rules, limit: nat)
    ensures Exact(ConfigurationCodec(rules, limit))
  {
    IdentityExact(rules, limit);
    ProfileExact(rules, limit);
    BothExact(IdentityCodec(rules, limit), ProfileCodec(rules, limit));
    MappedExact(Both(IdentityCodec(rules, limit), ProfileCodec(rules, limit)), ConfigurationOf, ConfigurationParts);
  }
}

/** Publication of an image and its report: staged, renamed one after the other, measured again, and
    rolled back on any failure. */
module Publisher {
  import opened Wrappers
  import opened Octets

  type Path = nat
  type Digest = seq<Byte>

  datatype Measurement = Measurement(bytes: nat, digest: Digest)

  /** Files by path. Any step may fail, as `faults` says; cancellation is such a step too. Removals
      succeed, and nobody else writes. */
  class FileSystem {
    var files: map<Path, seq<Byte>>
    var clock: nat
    const faults: nat -> bool
    const sha256: seq<Byte> -> Digest
    /** Every path whose file was ever written, moved or removed. */
    ghost var touched: set<Path>

    constructor (files: map<Path, seq<Byte>>, faults: nat -> bool, sha256: seq<Byte> -> Digest)
      ensures this.files == files && this.faults == faults && this.sha256 == sha256 && touched == {}
    {
      this.files, this.clock, this.faults, this.sha256, this.touched := files, 0, faults, sha256, {};
    }

    /** No step ever fails. */
    ghost predicate Reliable() { forall k :: !faults(k) }

    /** One fallible step that does not change a file. */
    method Proceed() returns (ok: bool)
      modifies this`clock
      ensures Reliable() ==> ok
    {
      ok := !faults(clock);
      clock := clock + 1;
    }

    method EnsureAbsent(path: Path) returns (ok: bool)
      modifies this`clock
      ensures ok ==> path !in files
      ensures Reliable() && path !in files ==> ok
    {
      var readable := Proceed();
      ok := readable && path !in files;
    }

    /** Create a file that must not exist; a failed write removes what it created. */
    method WriteNew(path: Path, bytes: seq<Byte>) returns (ok: bool)
      modifies this
      ensures ok ==> path !in old(files) && files == old(files)[path := bytes] && touched == old(touched) + {path}
      ensures !ok ==> files == old(files) && touched <= old(touched) + {path}
      ensures !ok && path in old(files) ==> touched == old(touched)
      ensures Reliable() && path !in old(files) ==> ok
    {
      var created := Proceed();
      if !created || path in files { return false; }
      files, touched := files[path := bytes], touched + {path};
      ok := Proceed();
      if !ok {
        files := files - {path};
        assert files == old(files);
      }
    }

    /** Renaming replaces whatever is at the target. */
    method Rename(source: Path, target: Path) returns (ok: bool)
      requires source != target
      modifies this
      ensures ok ==> source in old(files) && files == (old(files) - {source})[target := old(files)[source]]
      ensures ok ==> touched == old(touched) + {source, target}
      ensures !ok ==> files == old(files) && touched == old(touched)
      ensures Reliable() && source in old(files) ==> ok
    {
      ok := Proceed();
      if !ok || source !in files { return false; }
      files, touched := (files - {source})[target := files[source]], touched + {source, target};
    }

    method Remove(path: Path)
      modifies this`files, this`touched
      ensures files == old(files) - {path}
      ensures touched == old(touched) + if path in old(files) then {path} else {}
    {
      if path in files {
        files, touched := files - {path}, touched + {path};
      }
    }

    method Measure(path: Path, maximum: nat) returns (m: Option<Measurement>)
      modifies this`clock
      ensures m.Some? ==> path in files
      ensures m.Some? ==> |files[path]| <= maximum
      ensures m.Some? ==> m.value == Measurement(|files[path]|, sha256(files[path]))
      ensures Reliable() && path in files && |files[path]| <= maximum ==> m.Some?
    {
      var readable := Proceed();
      if !readable || path !in files || |files[path]| > maximum { return None; }
      return Some(Measurement(|files[path]|, sha256(files[path])));
    }
  }

  /** What is published: the linker's measurements of the image and the canonical report. The two flags
      stand for the comparisons of paths, build identities and report facts. */
  datatype Job = Job(
    temporaryImage: Path, temporaryReport: Path, finalImage: Path, finalReport: Path,
    artifact: Measurement, reportJson: seq<Byte>, maximumReportBytes: nat, consistent: bool, sealable: bool)

  /** Staging and final paths are distinct. */
  predicate Distinct(j: Job)
  {
    && j.temporaryImage != j.temporaryReport && j.temporaryImage != j.finalImage && j.temporaryImage != j.finalReport
    && j.temporaryReport != j.finalImage && j.temporaryReport != j.finalReport && j.finalImage != j.finalReport
  }

  /** Nothing outside the job's paths changed. */
  ghost predicate OthersKept(j: Job, before: map<Path, seq<Byte>>, after: map<Path, seq<Byte>>)
  {
    forall p :: p !in {j.temporaryImage, j.temporaryReport, j.finalImage, j.finalReport} ==>
      (p in before <==> p in after) && (p in before ==> before[p] == after[p])
  }

  /** Both final files are in place: the image as it was staged, with the measured digest, and the
      report byte for byte. */
  ghost predicate Published(
      j: Job, sha256: seq<Byte> -> Digest, before: map<Path, seq<Byte>>, after: map<Path, seq<Byte>>)
  {
    && j.temporaryImage in before && j.finalImage in after && j.finalReport in after
    && after[j.finalImage] == before[j.temporaryImage]
    && Measurement(|after[j.finalImage]|, sha256(after[j.finalImage])) == j.artifact
    && after[j.finalReport] == j.reportJson
    && j.temporaryImage !in after && j.temporaryReport !in after
  }

  /** A final file is as it was before. */
  ghost predicate Kept(p: Path, before: map<Path, seq<Byte>>, after: map<Path, seq<Byte>>)
  {
    (p in before <==> p in after) && (p in before ==> before[p] == after[p])
  }

  /** The staged image is the one the linker measured. */
  ghost predicate ImageStaged(j: Job, sha256: seq<Byte> -> Digest, files: map<Path, seq<Byte>>)
  {
    j.temporaryImage in files && Measurement(|files[j.temporaryImage]|, sha256(files[j.temporaryImage])) == j.artifact
  }

  /** The steps between staging the report and sealing. */
  method MoveIntoPlace(fs: FileSystem, j: Job) returns (success: Option<Digest>)
    requires Distinct(j) && j.finalImage !in fs.files && j.finalReport !in fs.files
    requires j.temporaryReport in fs.files && fs.files[j.temporaryReport] == j.reportJson
    requires |j.reportJson| <= j.maximumReportBytes
    modifies fs
    ensures OthersKept(j, old(fs.files), fs.files)
    ensures success.Some? ==> Published(j, fs.sha256, old(fs.files), fs.files)
    ensures success.Some? ==> success.value == fs.sha256(j.reportJson)
    ensures fs.Reliable() && ImageStaged(j, fs.sha256, old(fs.files)) ==> success.Some?
  {
    var image :- fs.Measure(j.temporaryImage, j.artifact.bytes);
    var report :- fs.Measure(j.temporaryReport, j.maximumReportBytes);
    if image != j.artifact || report.bytes != |j.reportJson| { return None; }
    var going := fs.Proceed();
    if !going { return None; }
    var moved := fs.Rename(j.temporaryImage, j.finalImage);
    if !moved { return None; }
    moved := fs.Rename(j.temporaryReport, j.finalReport);
    if !moved {
      fs.Remove(j.finalImage);
      return None;
    }
    var synced := fs.Proceed();
    if !synced { return None; }
    synced := fs.Proceed();
    if !synced { return None; }
    var finalImage :- fs.Measure(j.finalImage, j.artifact.bytes);
    var finalReport :- fs.Measure(j.finalReport, j.maximumReportBytes);
    if finalImage != image || finalReport != report { return None; }
    return Some(finalReport.digest);
  }

  /** The last checks: the comparisons, and the report's digest. */
  method Seal(fs: FileSystem, j: Job, reportDigest: Digest) returns (ok: bool)
    modifies fs`clock
    ensures fs.Reliable() ==> ok == (j.sealable && reportDigest == fs.sha256(j.reportJson))
  {
    var going := fs.Proceed();
    ok := going && j.sealable && reportDigest == fs.sha256(j.reportJson);
  }

  /** From staging on, with the final paths and the staging path of the report free. */
  method StageAndSeal(fs: FileSystem, j: Job) returns (ok: bool)
    requires Distinct(j) && |j.reportJson| <= j.maximumReportBytes
    requires j.temporaryReport !in fs.files && j.finalImage !in fs.files && j.finalReport !in fs.files
    modifies fs
    ensures OthersKept(j, old(fs.files), fs.files)
    ensures ok ==> Published(j, fs.sha256, old(fs.files), fs.files)
    ensures !ok ==> j.finalImage !in fs.files && j.finalReport !in fs.files && j.temporaryReport !in fs.files
    ensures fs.Reliable() && j.sealable && ImageStaged(j, fs.sha256, old(fs.files)) ==> ok
  {
    ok := fs.WriteNew(j.temporaryReport, j.reportJson);
    if !ok { return; }
    var staged := MoveIntoPlace(fs, j);
    if staged.None? {
      fs.Remove(j.temporaryReport);
      fs.Remove(j.finalImage);
      fs.Remove(j.finalReport);
      return false;
    }
    ok := Seal(fs, j, staged.value);
    if !ok {
      fs.Remove(j.finalImage);
      fs.Remove(j.finalReport);
    }
  }

  /** What a reliable run needs to succeed. */
  ghost predicate Publishable(j: Job, sha256: seq<Byte> -> Digest, files: map<Path, seq<Byte>>)
  {
    && j.consistent && j.sealable && 0 < j.maximumReportBytes && |j.reportJson| <= j.maximumReportBytes
    && j.temporaryReport !in files && j.finalImage !in files && j.finalReport !in files && ImageStaged(j, sha256, files)
  }

  /** Publication is all or nothing: on success both final files are in place; otherwise each final
      path is as it was, and a file that stood there is never touched on the way. A run without
      faults succeeds. */
  method Publish(fs: FileSystem, j: Job) returns (ok: bool)
    requires Distinct(j)
    modifies fs
    ensures OthersKept(j, old(fs.files), fs.files)
    ensures ok ==> Published(j, fs.sha256, old(fs.files), fs.files)
    ensures ok ==> j.finalImage !in old(fs.files)
    ensures ok ==> j.finalReport !in old(fs.files)
    ensures !ok ==> Kept(j.finalImage, old(fs.files), fs.files) && Kept(j.finalReport, old(fs.files), fs.files)
    ensures !ok && j.temporaryReport !in old(fs.files) ==> j.temporaryReport !in fs.files
    ensures j.finalImage in old(fs.files) || j.finalReport in old(fs.files) ==> fs.files == old(fs.files)
    ensures j.finalImage in old(fs.files) || j.finalReport in old(fs.files) ==> fs.touched == old(fs.touched)
    ensures fs.Reliable() && Publishable(j, fs.sha256, old(fs.files)) ==> ok
  {
    ok := fs.Proceed();
    if !ok || !j.consistent { return false; }
    ok := fs.EnsureAbsent(j.temporaryReport);
    if !ok { return; }
    ok := fs.EnsureAbsent(j.finalImage);
    if !ok { return; }
    ok := fs.EnsureAbsent(j.finalReport);
    if !ok { return; }
    ok := fs.Proceed();
    if !ok || j.maximumReportBytes == 0 || |j.reportJson| > j.maximumReportBytes { return false; }
    ok := StageAndSeal(fs, j);
  }
}

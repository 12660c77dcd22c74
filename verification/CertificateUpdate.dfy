/** Replacing the TLS files of a websocket server: each file is backed up and overwritten, the running server is
    switched over, and any failure on the way rolls the files back. */
module CertificateUpdate {
  import opened Options

  const BACKUP := ".backup"

  type Files = map<string, string>

  /** What goes wrong in a call to the file system, if anything: a failed write may leave part of the content. */
  datatype Fault = NoFault | Fails | FailsLeaving(content: string)

  datatype RollBackFile = RollBackFile(oldFilePath: string, newFilePath: string)

  /** An absent path is empty, as is an absent key or certificate. */
  datatype ServerConfig = ServerConfig(
    securityProfile: nat,
    tlsKeyFilePath: string,
    tlsCertificateChainFilePath: string,
    mtlsCertificateAuthorityKeyFilePath: string,
    rootCACertificateFilePath: string)

  datatype Material = Material(tlsKey: string, tlsCertificateChain: string, subCAKey: string, rootCA: string)

  datatype Replacement = Replacement(path: string, content: string)

  /** The files an update replaces, in order. */
  function Plan(config: ServerConfig, material: Material): seq<Replacement> {
    [Replacement(config.tlsKeyFilePath, material.tlsKey),
     Replacement(config.tlsCertificateChainFilePath, material.tlsCertificateChain)]
    + (if config.mtlsCertificateAuthorityKeyFilePath != "" && material.subCAKey != "" then
         [Replacement(config.mtlsCertificateAuthorityKeyFilePath, material.subCAKey)] else [])
    + (if config.rootCACertificateFilePath != "" && material.rootCA != "" then
         [Replacement(config.rootCACertificateFilePath, material.rootCA)] else [])
  }

  predicate Apart(p: string, q: string) {
    p != q && p != q + BACKUP && q != p + BACKUP
  }

  /** The paths are pairwise distinct and none is the backup of another. */
  predicate Disjoint(plan: seq<Replacement>) {
    forall i, j :: 0 <= i < j < |plan| ==> Apart(plan[i].path, plan[j].path)
  }

  lemma ApartBackups(p: string, q: string)
    ensures p != p + BACKUP
    ensures p + BACKUP == q + BACKUP <==> p == q
  {
    assert |p + BACKUP| == |p| + 7;
    assert (p + BACKUP)[..|p|] == p;
    assert (q + BACKUP)[..|q|] == q;
  }

  function Renamed(files: Files, from: string, to: string): Files
    requires from in files
  {
    (files - {from})[to := files[from]]
  }

  // States on the way.

  predicate SameAt(files: Files, original: Files, path: string) {
    (path in files <==> path in original) && (path in files ==> files[path] == original[path])
  }

  /** Is `path` one of the first `n` planned paths or a backup of one? */
  predicate Touched(plan: seq<Replacement>, n: nat, path: string)
    requires n <= |plan|
  {
    exists i :: 0 <= i < n && (path == plan[i].path || path == plan[i].path + BACKUP)
  }

  /** The first `restored` of the first `n` files are back in place, the others are in their backups;
      no other file has changed. */
  ghost predicate Recoverable(files: Files, original: Files, plan: seq<Replacement>, restored: nat, n: nat)
    requires restored <= n <= |plan|
  {
    && (forall i :: 0 <= i < n ==> plan[i].path in original)
    && (forall i :: 0 <= i < restored ==>
          plan[i].path in files && files[plan[i].path] == original[plan[i].path] && plan[i].path + BACKUP !in files)
    && (forall i :: restored <= i < n ==>
          plan[i].path + BACKUP in files && files[plan[i].path + BACKUP] == original[plan[i].path])
    && (forall path :: !Touched(plan, n, path) ==> SameAt(files, original, path))
  }

  /** The first `n` files hold their new content. */
  ghost predicate Written(files: Files, plan: seq<Replacement>, n: nat)
    requires n <= |plan|
  {
    forall i :: 0 <= i < n ==> plan[i].path in files && files[plan[i].path] == plan[i].content
  }

  /** The first `n` files are replaced. */
  ghost predicate Replacing(files: Files, original: Files, plan: seq<Replacement>, n: nat)
    requires n <= |plan|
  {
    Recoverable(files, original, plan, 0, n) && Written(files, plan, n)
  }

  lemma BackupStep(files: Files, original: Files, plan: seq<Replacement>, n: nat)
    requires n < |plan| && Disjoint(plan) && Recoverable(files, original, plan, 0, n) && Written(files, plan, n)
    requires plan[n].path in files
    ensures var after := Renamed(files, plan[n].path, plan[n].path + BACKUP);
            && Recoverable(after, original, plan, 0, n + 1) && Written(after, plan, n)
  {
    var path := plan[n].path;
    var after := Renamed(files, path, path + BACKUP);
    ApartBackups(path, path);
    forall i | 0 <= i < n ensures Apart(plan[i].path, path) && plan[i].path + BACKUP != path + BACKUP {
      ApartBackups(plan[i].path, path);
    }
    assert !Touched(plan, n, path);
    forall q | !Touched(plan, n + 1, q) ensures SameAt(after, original, q) {
      assert !Touched(plan, n, q);
      assert q != plan[n].path && q != plan[n].path + BACKUP;
    }
  }

  /** Writing to a path that has been backed up loses nothing, whatever ends up there. */
  lemma OverwriteKeepsRecoverable(files: Files, original: Files, plan: seq<Replacement>, n: nat, content: string)
    requires n < |plan| && Disjoint(plan) && Recoverable(files, original, plan, 0, n + 1) && Written(files, plan, n)
    ensures Recoverable(files[plan[n].path := content], original, plan, 0, n + 1)
    ensures content == plan[n].content ==> Written(files[plan[n].path := content], plan, n + 1)
  {
    var path := plan[n].path;
    ApartBackups(path, path);
    assert Touched(plan, n + 1, path);
    assert forall i :: 0 <= i < n ==> Apart(plan[i].path, path);
  }

  lemma RestoreStep(files: Files, original: Files, plan: seq<Replacement>, restored: nat, n: nat)
    requires restored < n <= |plan| && Disjoint(plan) && Recoverable(files, original, plan, restored, n)
    ensures Recoverable(Renamed(files, plan[restored].path + BACKUP, plan[restored].path), original, plan, restored + 1,
                        n)
  {
    var path := plan[restored].path;
    ApartBackups(path, path);
    forall i | 0 <= i < n && i != restored ensures Apart(plan[i].path, path) && plan[i].path + BACKUP != path + BACKUP {
      ApartBackups(plan[i].path, path);
    }
    assert Touched(plan, n, path) && Touched(plan, n, path + BACKUP);
  }

  // The same read off the configuration, without the plan.

  predicate ReplacesMtlsKey(config: ServerConfig, material: Material) {
    config.mtlsCertificateAuthorityKeyFilePath != "" && material.subCAKey != ""
  }

  predicate ReplacesRootCA(config: ServerConfig, material: Material) {
    config.rootCACertificateFilePath != "" && material.rootCA != ""
  }

  function Targets(config: ServerConfig, material: Material): set<string> {
    {config.tlsKeyFilePath, config.tlsCertificateChainFilePath}
    + (if ReplacesMtlsKey(config, material) then {config.mtlsCertificateAuthorityKeyFilePath} else {})
    + (if ReplacesRootCA(config, material) then {config.rootCACertificateFilePath} else {})
  }

  /** No two of the files to replace overlap. */
  predicate NonOverlapping(config: ServerConfig, material: Material) {
    var key, chain := config.tlsKeyFilePath, config.tlsCertificateChainFilePath;
    var mtlsKey, rootCA := config.mtlsCertificateAuthorityKeyFilePath, config.rootCACertificateFilePath;
    && Apart(key, chain)
    && (ReplacesMtlsKey(config, material) ==> Apart(key, mtlsKey) && Apart(chain, mtlsKey))
    && (ReplacesRootCA(config, material) ==> Apart(key, rootCA) && Apart(chain, rootCA))
    && (ReplacesMtlsKey(config, material) && ReplacesRootCA(config, material) ==> Apart(mtlsKey, rootCA))
  }

  predicate IsBackup(config: ServerConfig, material: Material, path: string) {
    exists target :: target in Targets(config, material) && path == target + BACKUP
  }

  /** The file holds the new content, its backup the old one. */
  predicate Holds(files: Files, original: Files, path: string, content: string) {
    && path in files && files[path] == content
    && path in original && path + BACKUP in files && files[path + BACKUP] == original[path]
  }

  /** Every file holds its own new content, and no file but these and their backups has changed. */
  ghost predicate UpToDate(files: Files, original: Files, config: ServerConfig, material: Material) {
    && Holds(files, original, config.tlsKeyFilePath, material.tlsKey)
    && Holds(files, original, config.tlsCertificateChainFilePath, material.tlsCertificateChain)
    && (ReplacesMtlsKey(config, material) ==>
          Holds(files, original, config.mtlsCertificateAuthorityKeyFilePath, material.subCAKey))
    && (ReplacesRootCA(config, material) ==>
          Holds(files, original, config.rootCACertificateFilePath, material.rootCA))
    && (forall path :: path !in Targets(config, material) && !IsBackup(config, material, path) ==>
          SameAt(files, original, path))
  }

  lemma PlanIsDisjointIff(config: ServerConfig, material: Material)
    ensures Disjoint(Plan(config, material)) <==> NonOverlapping(config, material)
  {
    var plan := Plan(config, material);
    if Disjoint(plan) {
      assert Apart(plan[0].path, plan[1].path);
      assert |plan| > 2 ==> Apart(plan[0].path, plan[2].path) && Apart(plan[1].path, plan[2].path);
      assert |plan| > 3 ==> Apart(plan[0].path, plan[3].path) && Apart(plan[1].path, plan[3].path);
      assert |plan| > 3 ==> Apart(plan[2].path, plan[3].path);
    }
  }

  lemma TouchedIff(config: ServerConfig, material: Material, path: string)
    ensures var plan := Plan(config, material);
            Touched(plan, |plan|, path) <==> path in Targets(config, material) || IsBackup(config, material, path)
  {
    var plan := Plan(config, material);
    assert plan[0].path == config.tlsKeyFilePath && plan[1].path == config.tlsCertificateChainFilePath;
    if ReplacesMtlsKey(config, material) {
      assert plan[2].path == config.mtlsCertificateAuthorityKeyFilePath;
    }
    if ReplacesRootCA(config, material) {
      assert plan[|plan| - 1].path == config.rootCACertificateFilePath;
    }
    assert forall i :: 0 <= i < |plan| ==> plan[i].path in Targets(config, material);
  }

  /** What has been replaced is up to date. */
  lemma ReplacedIsUpToDate(files: Files, original: Files, config: ServerConfig, material: Material)
    requires var plan := Plan(config, material);
             Written(files, plan, |plan|) && Recoverable(files, original, plan, 0, |plan|)
    ensures UpToDate(files, original, config, material)
  {
    var plan := Plan(config, material);
    forall i | 0 <= i < |plan| ensures Holds(files, original, plan[i].path, plan[i].content) {
    }
    assert Holds(files, original, plan[0].path, plan[0].content);
    assert Holds(files, original, plan[1].path, plan[1].content);
    if ReplacesMtlsKey(config, material) {
      assert Holds(files, original, plan[2].path, plan[2].content);
    }
    if ReplacesRootCA(config, material) {
      assert Holds(files, original, plan[|plan| - 1].path, plan[|plan| - 1].content);
    }
    forall path | path !in Targets(config, material) && !IsBackup(config, material, path)
      ensures SameAt(files, original, path)
    {
      TouchedIff(config, material, path);
    }
  }

  // The code.

  /** How an update ends. `RollbackFailed` counts the files put back before a rename of the rollback failed. */
  datatype Exit = Skipped | Updated | RolledBack | RollbackFailed(restored: nat)

  class FileSystem {
    var files: Files
    var calls: nat
    const faults: nat -> Fault

    constructor (files: Files, faults: nat -> Fault)
      ensures this.files == files && this.faults == faults && calls == 0
    {
      this.files, this.faults, calls := files, faults, 0;
    }

    method RenameSync(from: string, to: string) returns (ok: bool)
      modifies this
      ensures ok <==> from in old(files) && faults(old(calls)) == NoFault
      ensures files == (if ok then Renamed(old(files), from, to) else old(files)) && calls == old(calls) + 1
    {
      ok := from in files && faults(calls) == NoFault;
      if ok {
        files := Renamed(files, from, to);
      }
      calls := calls + 1;
    }

    method WriteFileSync(path: string, content: string) returns (ok: bool)
      modifies this
      ensures ok <==> faults(old(calls)) == NoFault
      ensures files == (match faults(old(calls))
                        case NoFault => old(files)[path := content]
                        case Fails => old(files)
                        case FailsLeaving(part) => old(files)[path := part])
      ensures calls == old(calls) + 1
    {
      match faults(calls) {
        case NoFault => files := files[path := content]; ok := true;
        case Fails => ok := false;
        case FailsLeaving(part) => files := files[path := part]; ok := false;
      }
      calls := calls + 1;
    }
  }

  /** The secure context of the running server, and the keys used for signing station certificates. */
  datatype Context = Context(key: string, chain: string, rootCA: string)

  class CertificatesApi {
    const fs: FileSystem
    var context: Context
    var subCAs: map<string, (string, string)>

    constructor (fs: FileSystem, context: Context, subCAs: map<string, (string, string)>)
      ensures this.fs == fs && this.context == context && this.subCAs == subCAs
    {
      this.fs, this.context, this.subCAs := fs, context, subCAs;
    }

    /** The list grows even when the write fails: the source pushes before it writes. */
    method ReplaceFile(targetFilePath: string, newContent: string, rollbackFiles: seq<RollBackFile>,
                       ghost original: Files, ghost plan: seq<Replacement>, ghost start: nat)
      returns (rollback: seq<RollBackFile>, ok: bool)
      requires |rollbackFiles| < |plan| <= 4 && plan[|rollbackFiles|] == Replacement(targetFilePath, newContent)
      requires Lists(rollbackFiles, plan) && (Disjoint(plan) ==> Replacing(fs.files, original, plan, |rollbackFiles|))
      requires Smooth(fs, start, original, plan) ==> OnTrack(fs, start, original, plan, |rollbackFiles|)
      modifies fs
      ensures |rollbackFiles| <= |rollback| <= |rollbackFiles| + 1 && Lists(rollback, plan)
      ensures ok ==> |rollback| == |rollbackFiles| + 1
      ensures Disjoint(plan) ==> Recoverable(fs.files, original, plan, 0, |rollback|)
      ensures Disjoint(plan) && ok ==> Written(fs.files, plan, |rollback|)
      ensures Smooth(fs, start, original, plan) ==> ok && OnTrack(fs, start, original, plan, |rollback|)
    {
      ghost var n := |rollbackFiles|;
      if Present(original, plan) {
        ReplacedIsPresent(original, plan, n);
      }
      ok := fs.RenameSync(targetFilePath, targetFilePath + BACKUP);
      if !ok {
        return rollbackFiles, false;
      }
      if Disjoint(plan) {
        BackupStep(old(fs.files), original, plan, n);
      }
      rollback := rollbackFiles + [RollBackFile(targetFilePath, targetFilePath + BACKUP)];
      ghost var backedUp := fs.files;
      ok := fs.WriteFileSync(targetFilePath, newContent);
      if Disjoint(plan) && (fs.files != backedUp || ok) {
        OverwriteKeepsRecoverable(backedUp, original, plan, n, fs.files[targetFilePath]);
      }
    }

    /** The signing keys of a server are replaced if the server has any; this cannot fail. */
    method UpdateSecurityCertChainKeyMap(serverId: string, certificateChain: string, privateKey: string)
      modifies this`subCAs
      ensures subCAs == if serverId in old(subCAs) then old(subCAs)[serverId := (certificateChain, privateKey)]
                        else old(subCAs)
    {
      if serverId in subCAs {
        subCAs := subCAs[serverId := (certificateChain, privateKey)];
      }
    }

    /** `switches` tells whether the running server takes the new certificates: it does not when it is no HTTPS server
        or refuses them. `reached` counts the files that were backed up. */
    method UpdateCertificates(config: ServerConfig, serverId: string, material: Material, switches: bool)
      returns (exit: Exit, ghost reached: nat)
      modifies this, fs
      ensures exit == Skipped <==> config.tlsKeyFilePath == "" || config.tlsCertificateChainFilePath == ""
      ensures exit == Skipped ==> fs.files == old(fs.files) && context == old(context) && subCAs == old(subCAs)
      // A normal exit: the running server switched, and, unless paths overlap, new content everywhere, the old one in
      // the backups, nothing else touched.
      ensures exit == Updated ==>
        && switches
        && context == Context(material.tlsKey, material.tlsCertificateChain, material.rootCA)
        && subCAs == if config.securityProfile == 3 && material.subCAKey != "" && serverId in old(subCAs) then
                       old(subCAs)[serverId := (material.tlsCertificateChain, material.subCAKey)]
                     else old(subCAs)
      ensures var plan := Plan(config, material);
              exit == Updated && Disjoint(plan) ==>
                Written(fs.files, plan, |plan|) && Recoverable(fs.files, old(fs.files), plan, 0, |plan|)
      ensures exit == Updated && NonOverlapping(config, material) ==>
                UpToDate(fs.files, old(fs.files), config, material)
      // A failure: every target file is as before, and no other file has changed, but the backups of the files reached
      // are gone, those of an earlier update included.
      ensures var plan := Plan(config, material);
              exit == RolledBack && Disjoint(plan) ==>
                && reached <= |plan|
                && (forall i :: 0 <= i < |plan| ==> SameAt(fs.files, old(fs.files), plan[i].path))
                && (forall i :: 0 <= i < reached ==> plan[i].path + BACKUP !in fs.files)
                && (forall i :: reached <= i < |plan| ==> SameAt(fs.files, old(fs.files), plan[i].path + BACKUP))
                && (forall path :: !Touched(plan, |plan|, path) ==> SameAt(fs.files, old(fs.files), path))
      ensures exit == RolledBack && NonOverlapping(config, material) ==>
                forall path :: !IsBackup(config, material, path) ==> SameAt(fs.files, old(fs.files), path)
      // A failure of the rollback itself: no original content is lost.
      ensures exit.RollbackFailed? && Disjoint(Plan(config, material)) ==>
                && Kept(fs.files, old(fs.files), Plan(config, material))
                && 0 < fs.calls && fs.faults(fs.calls - 1) != NoFault
      // Whenever the files are rolled back, the running server and the signing keys are as before.
      ensures exit == RolledBack || exit.RollbackFailed? ==> context == old(context) && subCAs == old(subCAs)
      // Without faults and with all files present, an update succeeds if the server switches; otherwise, overlapping
      // paths or not, the rollback does what it does to the whole plan.
      ensures var plan := Plan(config, material);
              old(Faultless(fs, 12)) && Present(old(fs.files), plan) && exit != Skipped ==>
                && (switches ==> exit == Updated && fs.files == ReplaceFirst(old(fs.files), plan, |plan|))
                && (!switches ==>
                      && (exit == RolledBack <==> AfterRollback(old(fs.files), plan).Some?)
                      && (exit == RolledBack ==> AfterRollback(old(fs.files), plan) == Some(fs.files)))
    {
      reached := 0;
      if config.tlsKeyFilePath == "" || config.tlsCertificateChainFilePath == "" {
        return Skipped, 0;
      }
      ghost var original, plan := fs.files, Plan(config, material);
      var rollbackFiles, ok := ReplaceFiles(config, material);
      reached := |rollbackFiles|;
      if ok {
        ok := switches;
        if ok {
          context := Context(material.tlsKey, material.tlsCertificateChain, material.rootCA);
        }
      }
      if ok && config.securityProfile == 3 && material.subCAKey != "" {
        UpdateSecurityCertChainKeyMap(serverId, material.tlsCertificateChain, material.subCAKey);
      }
      PlanIsDisjointIff(config, material);
      if ok {
        if Disjoint(plan) {
          ReplacedIsUpToDate(fs.files, original, config, material);
        }
        return Updated, reached;
      }
      exit := RollBack(rollbackFiles, original, plan);
      if Disjoint(plan) {
        if exit == RolledBack {
          RollbackRestores(fs.files, original, plan, |rollbackFiles|);
          RestoredSaveBackups(fs.files, original, config, material);
        } else {
          RecoverableIsKept(fs.files, original, plan, exit.restored, |rollbackFiles|);
        }
      }
    }

    method ReplaceFiles(config: ServerConfig, material: Material) returns (rollbackFiles: seq<RollBackFile>, ok: bool)
      modifies fs
      ensures var plan := Plan(config, material);
              && Lists(rollbackFiles, plan) && (ok ==> |rollbackFiles| == |plan|)
              && (Disjoint(plan) ==> Recoverable(fs.files, old(fs.files), plan, 0, |rollbackFiles|))
              && (Disjoint(plan) && ok ==> Written(fs.files, plan, |plan|))
              && (Smooth(fs, old(fs.calls), old(fs.files), plan) ==>
                    ok && OnTrack(fs, old(fs.calls), old(fs.files), plan, |plan|))
    {
      ghost var original, plan := fs.files, Plan(config, material);
      ghost var start := fs.calls;
      NothingReplaced(original, plan);
      rollbackFiles, ok := ReplaceFile(config.tlsKeyFilePath, material.tlsKey, [], original, plan, start);
      if ok {
        rollbackFiles, ok := ReplaceFile(config.tlsCertificateChainFilePath, material.tlsCertificateChain,
                                         rollbackFiles, original, plan, start);
      }
      if ok && config.mtlsCertificateAuthorityKeyFilePath != "" && material.subCAKey != "" {
        rollbackFiles, ok := ReplaceFile(config.mtlsCertificateAuthorityKeyFilePath, material.subCAKey, rollbackFiles,
                                         original, plan, start);
      }
      if ok && config.rootCACertificateFilePath != "" && material.rootCA != "" {
        rollbackFiles, ok := ReplaceFile(config.rootCACertificateFilePath, material.rootCA, rollbackFiles, original,
                                         plan, start);
      }
    }

    method RollBack(rollbackFiles: seq<RollBackFile>, ghost original: Files, ghost plan: seq<Replacement>)
      returns (exit: Exit)
      requires Lists(rollbackFiles, plan)
      requires Disjoint(plan) ==> Recoverable(fs.files, original, plan, 0, |rollbackFiles|)
      modifies fs
      ensures exit == RolledBack || exit.RollbackFailed?
      ensures Disjoint(plan) && exit == RolledBack ==>
                Recoverable(fs.files, original, plan, |rollbackFiles|, |rollbackFiles|)
      ensures Disjoint(plan) && exit.RollbackFailed? ==>
                && exit.restored < |rollbackFiles|
                && Recoverable(fs.files, original, plan, exit.restored, |rollbackFiles|)
                && 0 < fs.calls && fs.faults(fs.calls - 1) != NoFault
      ensures old(Faultless(fs, |rollbackFiles|)) ==>
                && (exit == RolledBack <==> RestoreFirst(old(fs.files), plan, |rollbackFiles|).Some?)
                && (exit == RolledBack ==> RestoreFirst(old(fs.files), plan, |rollbackFiles|) == Some(fs.files))
    {
      for i := 0 to |rollbackFiles|
        invariant Disjoint(plan) ==> Recoverable(fs.files, original, plan, i, |rollbackFiles|)
        invariant fs.calls == old(fs.calls) + i
        invariant old(Faultless(fs, |rollbackFiles|)) ==> RestoreFirst(old(fs.files), plan, i) == Some(fs.files)
      {
        if Disjoint(plan) {
          RestoreStep(fs.files, original, plan, i, |rollbackFiles|);
        }
        var ok := fs.RenameSync(rollbackFiles[i].newFilePath, rollbackFiles[i].oldFilePath);
        if !ok {
          if RestoreFirst(old(fs.files), plan, |rollbackFiles|).Some? {
            BackupIsThere(old(fs.files), plan, i, |rollbackFiles|);
          }
          return RollbackFailed(i);
        }
      }
      return RolledBack;
    }
  }

  /** The next `n` calls succeed. */
  predicate Faultless(fs: FileSystem, n: nat)
    reads fs
  {
    forall i :: fs.calls <= i < fs.calls + n ==> fs.faults(i) == NoFault
  }

  /** The files are all there, and none of the calls that replace them fails. */
  predicate Smooth(fs: FileSystem, start: nat, original: Files, plan: seq<Replacement>)
    reads fs
  {
    Present(original, plan) && forall i :: start <= i < start + 8 ==> fs.faults(i) == NoFault
  }

  predicate OnTrack(fs: FileSystem, start: nat, original: Files, plan: seq<Replacement>, n: nat)
    requires n <= |plan|
    reads fs
  {
    fs.calls == start + 2 * n && fs.files == ReplaceFirst(original, plan, n)
  }

  /** The rollback list names the planned files and their backups. */
  predicate Lists(rollbackFiles: seq<RollBackFile>, plan: seq<Replacement>) {
    && |rollbackFiles| <= |plan|
    && forall i :: 0 <= i < |rollbackFiles| ==>
         rollbackFiles[i] == RollBackFile(plan[i].path, plan[i].path + BACKUP)
  }

  /** A completed rollback leaves every planned file as it was, reached or not. */
  lemma RollbackRestores(files: Files, original: Files, plan: seq<Replacement>, n: nat)
    requires n <= |plan| && Disjoint(plan) && Recoverable(files, original, plan, n, n)
    ensures forall i :: 0 <= i < |plan| ==> SameAt(files, original, plan[i].path)
    ensures forall i :: 0 <= i < n ==> plan[i].path + BACKUP !in files
    ensures forall i :: n <= i < |plan| ==> SameAt(files, original, plan[i].path + BACKUP)
    ensures forall path :: !Touched(plan, |plan|, path) ==> SameAt(files, original, path)
  {
    forall i | n <= i < |plan| ensures !Touched(plan, n, plan[i].path) && !Touched(plan, n, plan[i].path + BACKUP) {
      forall j | 0 <= j < n
        ensures Apart(plan[j].path, plan[i].path) && plan[j].path + BACKUP != plan[i].path + BACKUP
      {
        ApartBackups(plan[j].path, plan[i].path);
      }
    }
    forall path | !Touched(plan, |plan|, path) ensures !Touched(plan, n, path) {
    }
  }

  lemma RestoredSaveBackups(files: Files, original: Files, config: ServerConfig, material: Material)
    requires var plan := Plan(config, material);
             && (forall i :: 0 <= i < |plan| ==> SameAt(files, original, plan[i].path))
             && (forall path :: !Touched(plan, |plan|, path) ==> SameAt(files, original, path))
    ensures forall path :: !IsBackup(config, material, path) ==> SameAt(files, original, path)
  {
    var plan := Plan(config, material);
    forall path | !IsBackup(config, material, path) ensures SameAt(files, original, path) {
      TouchedIff(config, material, path);
      if Touched(plan, |plan|, path) {
        var i :| 0 <= i < |plan| && (path == plan[i].path || path == plan[i].path + BACKUP);
        assert plan[i].path in Targets(config, material);
      }
    }
  }

  /** Every original is in its file or in its backup at all times. */
  ghost predicate Kept(files: Files, original: Files, plan: seq<Replacement>) {
    forall i :: 0 <= i < |plan| && plan[i].path in original ==>
      || (plan[i].path in files && files[plan[i].path] == original[plan[i].path])
      || (plan[i].path + BACKUP in files && files[plan[i].path + BACKUP] == original[plan[i].path])
  }

  lemma RecoverableIsKept(files: Files, original: Files, plan: seq<Replacement>, restored: nat, n: nat)
    requires restored <= n <= |plan| && Disjoint(plan) && Recoverable(files, original, plan, restored, n)
    ensures Kept(files, original, plan)
  {
    forall i | n <= i < |plan| ensures SameAt(files, original, plan[i].path) {
      assert forall j :: 0 <= j < n ==> Apart(plan[j].path, plan[i].path);
      assert !Touched(plan, n, plan[i].path);
    }
  }

  lemma UntouchedTarget(files: Files, original: Files, plan: seq<Replacement>, n: nat)
    requires n < |plan| && Disjoint(plan) && Recoverable(files, original, plan, 0, n)
    ensures SameAt(files, original, plan[n].path)
  {
    assert forall i :: 0 <= i < n ==> Apart(plan[i].path, plan[n].path);
    assert !Touched(plan, n, plan[n].path);
  }

  // Overlapping paths.

  /** A file replaced without faults; an absent one cannot be renamed. */
  function Replaced(files: Files, path: string, content: string): Files {
    if path in files then Renamed(files, path, path + BACKUP)[path := content] else files
  }

  predicate Present(files: Files, plan: seq<Replacement>) {
    forall i :: 0 <= i < |plan| ==> plan[i].path in files
  }

  function ReplaceFirst(files: Files, plan: seq<Replacement>, n: nat): Files
    requires n <= |plan|
  {
    if n == 0 then files
    else Replaced(ReplaceFirst(files, plan, n - 1), plan[n - 1].path, plan[n - 1].content)
  }

  lemma {:induction false} ReplacedIsPresent(files: Files, plan: seq<Replacement>, n: nat)
    requires n <= |plan| && Present(files, plan)
    ensures Present(ReplaceFirst(files, plan, n), plan)
    decreases n
  {
    if n > 0 {
      ReplacedIsPresent(files, plan, n - 1);
    }
  }

  /** The first `n` files put back in the order of their replacement; None when a backup is missing. */
  function RestoreFirst(files: Files, plan: seq<Replacement>, n: nat): Option<Files>
    requires n <= |plan|
  {
    if n == 0 then Some(files)
    else
      var before := RestoreFirst(files, plan, n - 1);
      var path := plan[n - 1].path;
      if before.None? || path + BACKUP !in before.value then None else Some(Renamed(before.value, path + BACKUP, path))
  }

  function AfterRollback(original: Files, plan: seq<Replacement>): Option<Files> {
    RestoreFirst(ReplaceFirst(original, plan, |plan|), plan, |plan|)
  }

  predicate Restored(original: Files, plan: seq<Replacement>) {
    var r := AfterRollback(original, plan);
    r.Some? && forall i :: 0 <= i < |plan| ==> SameAt(r.value, original, plan[i].path)
  }

  /** No content occurs twice, so that nothing is in its place by chance. */
  predicate ToldApart(original: Files, plan: seq<Replacement>) {
    && (forall p, q :: p in original && q in original && original[p] == original[q] ==> p == q)
    && (forall p, i :: p in original && 0 <= i < |plan| ==> original[p] != plan[i].content)
  }

  lemma ReplaceStep(files: Files, original: Files, plan: seq<Replacement>, n: nat)
    requires n < |plan| && Disjoint(plan) && Recoverable(files, original, plan, 0, n) && Written(files, plan, n)
    requires plan[n].path in files
    ensures var after := Replaced(files, plan[n].path, plan[n].content);
            Recoverable(after, original, plan, 0, n + 1) && Written(after, plan, n + 1)
  {
    BackupStep(files, original, plan, n);
    OverwriteKeepsRecoverable(Renamed(files, plan[n].path, plan[n].path + BACKUP), original, plan, n, plan[n].content);
  }

  lemma NothingReplaced(original: Files, plan: seq<Replacement>)
    ensures Recoverable(original, original, plan, 0, 0) && Written(original, plan, 0)
  {
  }

  lemma {:induction false} ReplacingIsRecoverable(original: Files, plan: seq<Replacement>, n: nat)
    returns (files: Files)
    requires n <= |plan| && Present(original, plan) && Disjoint(plan)
    ensures files == ReplaceFirst(original, plan, n)
    ensures Recoverable(files, original, plan, 0, n) && Written(files, plan, n)
    decreases n
  {
    if n == 0 {
      NothingReplaced(original, plan);
      return original;
    }
    var before := ReplacingIsRecoverable(original, plan, n - 1);
    UntouchedTarget(before, original, plan, n - 1);
    ReplaceStep(before, original, plan, n - 1);
    return Replaced(before, plan[n - 1].path, plan[n - 1].content);
  }

  lemma {:induction false} RestoringIsRecoverable(files: Files, original: Files, plan: seq<Replacement>, n: nat)
    requires n <= |plan| && Disjoint(plan) && Recoverable(files, original, plan, 0, |plan|)
    ensures RestoreFirst(files, plan, n).Some?
    ensures Recoverable(RestoreFirst(files, plan, n).value, original, plan, n, |plan|)
    decreases n
  {
    if n > 0 {
      RestoringIsRecoverable(files, original, plan, n - 1);
      RestoreStep(RestoreFirst(files, plan, n - 1).value, original, plan, n - 1, |plan|);
    }
  }

  predicate Planned(plan: seq<Replacement>, path: string) {
    exists i :: 0 <= i < |plan| && plan[i].path == path
  }

  predicate PlannedTwice(plan: seq<Replacement>, path: string) {
    exists i, j :: 0 <= i < j < |plan| && plan[i].path == path && plan[j].path == path
  }

  predicate IsFirst(plan: seq<Replacement>, path: string, i: nat) {
    i < |plan| && plan[i].path == path && forall k :: 0 <= k < i ==> plan[k].path != path
  }

  predicate IsLast(plan: seq<Replacement>, path: string, i: nat) {
    i < |plan| && plan[i].path == path && forall k :: i < k < |plan| ==> plan[k].path != path
  }

  lemma {:induction false} FirstAndLast(plan: seq<Replacement>, path: string) returns (i: nat, j: nat)
    requires Planned(plan, path)
    ensures IsFirst(plan, path, i) && IsLast(plan, path, j)
    decreases |plan|
  {
    var n := |plan| - 1;
    if Planned(plan[..n], path) {
      i, j := FirstAndLast(plan[..n], path);
      j := if plan[n].path == path then n else j;
      assert forall k :: 0 <= k < n ==> plan[..n][k] == plan[k];
    } else {
      i, j := n, n;
      forall k | 0 <= k < n ensures plan[k].path != path {
        assert plan[..n][k] == plan[k];
      }
    }
  }

  /** What is missing during the rollback stays missing until it is put back. */
  lemma {:induction false} MissingStays(files: Files, plan: seq<Replacement>, path: string, m: nat, n: nat)
    requires m <= n <= |plan| && RestoreFirst(files, plan, n).Some?
    requires forall k :: m <= k < n ==> plan[k].path != path
    ensures RestoreFirst(files, plan, m).Some?
    ensures path !in RestoreFirst(files, plan, m).value ==> path !in RestoreFirst(files, plan, n).value
    decreases n
  {
    if n > m {
      MissingStays(files, plan, path, m, n - 1);
    }
  }

  lemma {:induction false} PrefixRestores(files: Files, plan: seq<Replacement>, m: nat, n: nat)
    requires m <= n <= |plan| && RestoreFirst(files, plan, n).Some?
    ensures RestoreFirst(files, plan, m).Some?
    decreases n
  {
    if m < n {
      PrefixRestores(files, plan, m, n - 1);
    }
  }

  /** A rollback that goes through has found every backup. */
  lemma BackupIsThere(files: Files, plan: seq<Replacement>, i: nat, n: nat)
    requires i < n <= |plan| && RestoreFirst(files, plan, n).Some?
    ensures RestoreFirst(files, plan, i).Some? && plan[i].path + BACKUP in RestoreFirst(files, plan, i).value
  {
    PrefixRestores(files, plan, i + 1, n);
    assert RestoreFirst(files, plan, i + 1).Some?;
  }

  /** A file replaced twice can be put back twice only if its backup is put back in between. */
  lemma TwiceNeedsBackup(original: Files, plan: seq<Replacement>, path: string)
    requires Present(original, plan) && Restored(original, plan) && PlannedTwice(plan, path)
    ensures Planned(plan, path + BACKUP)
  {
    var i, j :| 0 <= i < j < |plan| && plan[i].path == path && plan[j].path == path;
    var files := ReplaceFirst(original, plan, |plan|);
    ApartBackups(path, path);
    PrefixRestores(files, plan, i + 1, |plan|);
    PrefixRestores(files, plan, j + 1, |plan|);
    if forall k :: i < k < j ==> plan[k].path != path + BACKUP {
      MissingStays(files, plan, path + BACKUP, i + 1, j);
    }
  }

  /** If a file and its backup are both replaced, the backup is put back last of the two ... */
  lemma BackupIsLast(original: Files, plan: seq<Replacement>, path: string, i: nat, j: nat)
    requires Present(original, plan) && Restored(original, plan)
    requires IsLast(plan, path, i) && IsLast(plan, path + BACKUP, j)
    ensures i < j
  {
    var files := ReplaceFirst(original, plan, |plan|);
    ApartBackups(path, path);
    if j < i {
      PrefixRestores(files, plan, i + 1, |plan|);
      MissingStays(files, plan, path + BACKUP, i + 1, |plan|);
    }
  }

  predicate Nowhere(files: Files, content: string) {
    forall path :: path in files ==> files[path] != content
  }

  predicate OnlyAt(files: Files, content: string, path: string) {
    path in files && files[path] == content && forall p :: p in files && files[p] == content ==> p == path
  }

  lemma {:induction false} UntouchedIsOnlyAt(original: Files, plan: seq<Replacement>, path: string, n: nat)
    requires n <= |plan| && Present(original, plan) && ToldApart(original, plan) && path in original
    requires forall k :: 0 <= k < n ==> plan[k].path != path && plan[k].path + BACKUP != path
    ensures OnlyAt(ReplaceFirst(original, plan, n), original[path], path)
    decreases n
  {
    if n > 0 {
      UntouchedIsOnlyAt(original, plan, path, n - 1);
    }
  }

  lemma {:induction false} LostInReplacing(original: Files, plan: seq<Replacement>, path: string, m: nat, n: nat)
    requires m <= n <= |plan| && Present(original, plan) && ToldApart(original, plan) && path in original
    requires Nowhere(ReplaceFirst(original, plan, m), original[path])
    ensures Nowhere(ReplaceFirst(original, plan, n), original[path])
    decreases n
  {
    if m < n {
      LostInReplacing(original, plan, path, m, n - 1);
    }
  }

  lemma {:induction false} LostInRestoring(files: Files, plan: seq<Replacement>, content: string, n: nat)
    requires n <= |plan| && Nowhere(files, content) && RestoreFirst(files, plan, n).Some?
    ensures Nowhere(RestoreFirst(files, plan, n).value, content)
    decreases n
  {
    if n > 0 {
      LostInRestoring(files, plan, content, n - 1);
    }
  }

  /** ... and is replaced first, or else its content is lost. */
  lemma BackupIsFirst(original: Files, plan: seq<Replacement>, path: string, i: nat, j: nat)
    requires Present(original, plan) && ToldApart(original, plan) && Restored(original, plan)
    requires IsFirst(plan, path, i) && IsFirst(plan, path + BACKUP, j)
    ensures j < i
  {
    ApartBackups(path, path);
    if i < j {
      var backup := path + BACKUP;
      forall k | 0 <= k < i ensures plan[k].path + BACKUP != backup {
        ApartBackups(plan[k].path, path);
      }
      UntouchedIsOnlyAt(original, plan, backup, i);
      ReplacedIsPresent(original, plan, i);
      LostInReplacing(original, plan, backup, i + 1, |plan|);
      LostInRestoring(ReplaceFirst(original, plan, |plan|), plan, original[backup], |plan|);
    }
  }

  /** A file replaced along with its backup makes the backup one that is replaced twice. */
  lemma BackupIsPlannedTwice(original: Files, plan: seq<Replacement>, path: string)
    requires Present(original, plan) && ToldApart(original, plan) && Restored(original, plan)
    requires Planned(plan, path) && Planned(plan, path + BACKUP)
    ensures PlannedTwice(plan, path + BACKUP)
  {
    var i, i' := FirstAndLast(plan, path);
    var j, j' := FirstAndLast(plan, path + BACKUP);
    BackupIsFirst(original, plan, path, i, j);
    BackupIsLast(original, plan, path, i', j');
    assert i <= i';
  }

  /** So no file is replaced twice: otherwise its backup is, and the backup of that, and so on. */
  lemma {:induction false} NoneIsPlannedTwice(original: Files, plan: seq<Replacement>, path: string, longest: nat)
    requires Present(original, plan) && ToldApart(original, plan) && Restored(original, plan)
    requires forall i :: 0 <= i < |plan| ==> |plan[i].path| <= longest
    ensures !PlannedTwice(plan, path)
    decreases longest - |path|
  {
    if |path| <= longest && PlannedTwice(plan, path) {
      TwiceNeedsBackup(original, plan, path);
      BackupIsPlannedTwice(original, plan, path);
      NoneIsPlannedTwice(original, plan, path + BACKUP, longest);
    }
  }

  lemma {:induction false} Longest(plan: seq<Replacement>) returns (longest: nat)
    ensures forall i :: 0 <= i < |plan| ==> |plan[i].path| <= longest
    decreases |plan|
  {
    if plan == [] {
      longest := 0;
    } else {
      var n := |plan| - 1;
      longest := Longest(plan[..n]);
      assert forall i :: 0 <= i < n ==> |plan[..n][i].path| <= longest;
      longest := if |plan[n].path| > longest then |plan[n].path| else longest;
    }
  }

  /** When contents can be told apart, a rollback of the whole plan restores every file exactly if the paths do not
      overlap: they are pairwise different and none is the backup of another. */
  lemma RollbackRestoresIff(original: Files, plan: seq<Replacement>)
    requires Present(original, plan) && ToldApart(original, plan)
    ensures Restored(original, plan) <==> Disjoint(plan)
  {
    if Disjoint(plan) {
      var replaced := ReplacingIsRecoverable(original, plan, |plan|);
      RestoringIsRecoverable(replaced, original, plan, |plan|);
      RollbackRestores(AfterRollback(original, plan).value, original, plan, |plan|);
    }
    if Restored(original, plan) {
      var longest := Longest(plan);
      forall i, j | 0 <= i < j < |plan| ensures Apart(plan[i].path, plan[j].path) {
        RestoredIsApart(original, plan, plan[i].path, plan[j].path, longest);
        NoneIsPlannedTwice(original, plan, plan[i].path, longest);
      }
    }
  }

  lemma RestoredIsApart(original: Files, plan: seq<Replacement>, p: string, q: string, longest: nat)
    requires Present(original, plan) && ToldApart(original, plan) && Restored(original, plan)
    requires forall i :: 0 <= i < |plan| ==> |plan[i].path| <= longest
    requires Planned(plan, p) && Planned(plan, q)
    ensures p != q + BACKUP && q != p + BACKUP
  {
    NoneIsPlannedTwice(original, plan, q + BACKUP, longest);
    NoneIsPlannedTwice(original, plan, p + BACKUP, longest);
    if p == q + BACKUP {
      BackupIsPlannedTwice(original, plan, q);
    } else if q == p + BACKUP {
      BackupIsPlannedTwice(original, plan, p);
    }
  }
}

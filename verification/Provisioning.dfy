/** Preparing an instance's state root, and changing whether it shares the host's credentials.
    Every operation of the file system may fail; `Io` says which do in one call. */
module Provisioning {
  import opened Text
  import opened Links

  datatype Io = Io(dir: bool, settings: bool, link: bool, credentials: bool, remove: bool)

  datatype Report = Report(settingsWritten: bool, credentialsCreated: bool, credentialsShared: bool)

  datatype ShareOutcome = Shared | Private | Unavailable

  function SettingsPath(root: Path): Path {
    root + "/settings.yaml"
  }

  function CredentialsPath(root: Path): Path {
    root + "/.credentials.yaml"
  }

  /** A `provider/model` spec; the default provider unless both halves are there. */
  function SplitModel(spec: string): (string, string) {
    match SplitOnce(spec, '/')
    case None => ("deepseek-official", spec)
    case Some((provider, model)) =>
      if provider != "" && model != "" then (provider, model) else ("deepseek-official", spec)
  }

  /** The settings document, without its leading comment. */
  function SettingsDocument(model: string): string {
    var (provider, id) := SplitModel(model);
    "agent-default-model:\n  provider: " + provider + "\n  model: " + id + "\n"
  }

  // ---------------------------------------------------------------- specification

  /** The settings step: written only where nothing exists. */
  function WithSettings(fs: Files, root: Path, model: Option<string>, io: Io): (Files, Option<bool>) {
    if model.None? || Exists(fs, SettingsPath(root)) then (fs, Some(false))
    else
      match WriteFile(fs, SettingsPath(root), SettingsDocument(model.value), io.settings)
      case None => (fs, None)
      case Some(next) => (next, Some(true))
  }

  /** The credentials step; the flags are "created" and "shared". */
  function WithCredentials(fs: Files, root: Path, share: bool, host: Option<Path>, io: Io): (Files, Option<(bool, bool)>) {
    var creds := CredentialsPath(root);
    if Exists(fs, creds) then (fs, Some((false, share && PointsAt(fs, creds, host))))
    else
      var linked := if share && host.Some? && Exists(fs, host.value) then MakeLink(fs, host.value, creds, io.link) else None;
      match linked
      case Some(next) => (next, Some((true, true)))
      case None =>
        match WriteFile(fs, creds, "", io.credentials)
        case None => (fs, None)
        case Some(next) => (next, Some((true, false)))
  }

  /** `provision`: the files afterwards, and the report or an error. */
  function Provision(fs: Files, root: Path, model: Option<string>, share: bool, host: Option<Path>, io: Io): (Files, Option<Report>) {
    match MakeDir(fs, root, io.dir)
    case None => (fs, None)
    case Some(fs1) =>
      var (fs2, wrote) := WithSettings(fs1, root, model, io);
      if wrote.None? then (fs2, None)
      else
        var (fs3, flags) := WithCredentials(fs2, root, share, host, io);
        if flags.None? then (fs3, None) else (fs3, Some(Report(wrote.value, flags.value.0, flags.value.1)))
  }

  /** `set_credential_sharing`. */
  function SetSharing(fs: Files, root: Path, share: bool, host: Option<Path>, io: Io): (Files, Option<ShareOutcome>) {
    var creds := CredentialsPath(root);
    if !Exists(fs, root) then (fs, Some(if share then Shared else Private))
    else if share && (host.None? || !Exists(fs, host.value)) then (fs, Some(Unavailable))
    else if share && PointsAt(fs, creds, host) then (fs, Some(Shared))
    else
      match RemoveLink(fs, creds, io.remove)
      case None => (fs, None)
      case Some(fs1) =>
        var linked := if share then MakeLink(fs1, host.value, creds, io.link) else None;
        match linked
        case Some(fs2) => (fs2, Some(Shared))
        case None =>
          match WriteFile(fs1, creds, "", io.credentials)
          case None => (fs1, None)
          case Some(fs2) => (fs2, Some(if share then Unavailable else Private))
  }

  // ---------------------------------------------------------------- the operations

  class FileSystem {
    var files: Files

    constructor (files: Files)
      ensures this.files == files
    {
      this.files := files;
    }

    method Write(p: Path, bytes: string, may: bool) returns (ok: bool)
      modifies this
      ensures ok == WriteFile(old(files), p, bytes, may).Some?
      ensures files == WriteFile(old(files), p, bytes, may).GetOr(old(files))
    {
      var next := WriteFile(files, p, bytes, may);
      ok := next.Some?;
      files := next.GetOr(files);
    }

    method Symlink(target: Path, link: Path, may: bool) returns (ok: bool)
      modifies this
      ensures ok == MakeLink(old(files), target, link, may).Some?
      ensures files == MakeLink(old(files), target, link, may).GetOr(old(files))
    {
      var next := MakeLink(files, target, link, may);
      ok := next.Some?;
      files := next.GetOr(files);
    }

    method Remove(p: Path, may: bool) returns (ok: bool)
      modifies this
      ensures ok == RemoveLink(old(files), p, may).Some?
      ensures files == RemoveLink(old(files), p, may).GetOr(old(files))
    {
      var next := RemoveLink(files, p, may);
      ok := next.Some?;
      files := next.GetOr(files);
    }

    method CreateDirAll(p: Path, may: bool) returns (ok: bool)
      modifies this
      ensures ok == MakeDir(old(files), p, may).Some?
      ensures files == MakeDir(old(files), p, may).GetOr(old(files))
    {
      var next := MakeDir(files, p, may);
      ok := next.Some?;
      files := next.GetOr(files);
    }

    method EnsureSettings(root: Path, model: Option<string>, io: Io) returns (wrote: Option<bool>)
      modifies this
      ensures (files, wrote) == WithSettings(old(files), root, model, io)
    {
      if model.None? || Exists(files, SettingsPath(root)) {
        return Some(false);
      }
      var ok := Write(SettingsPath(root), SettingsDocument(model.value), io.settings);
      return if ok then Some(true) else None;
    }

    method EnsureCredentials(root: Path, share: bool, host: Option<Path>, io: Io) returns (flags: Option<(bool, bool)>)
      modifies this
      ensures (files, flags) == WithCredentials(old(files), root, share, host, io)
    {
      var creds := CredentialsPath(root);
      var shared := false;
      if Exists(files, creds) {
        if share {
          shared := PointsAt(files, creds, host);
        }
        return Some((false, shared));
      }
      if share && host.Some? && Exists(files, host.value) {
        shared := Symlink(host.value, creds, io.link);
      }
      if !shared {
        var ok := Write(creds, "", io.credentials);
        if !ok {
          return None;
        }
      }
      return Some((true, shared));
    }

    method ProvisionRoot(root: Path, model: Option<string>, share: bool, host: Option<Path>, io: Io) returns (report: Option<Report>)
      modifies this
      ensures (files, report) == Provision(old(files), root, model, share, host, io)
    {
      var ok := CreateDirAll(root, io.dir);
      if !ok {
        return None;
      }
      var wrote := EnsureSettings(root, model, io);
      if wrote.None? {
        return None;
      }
      var flags := EnsureCredentials(root, share, host, io);
      if flags.None? {
        return None;
      }
      return Some(Report(wrote.value, flags.value.0, flags.value.1));
    }

    method SetCredentialSharing(root: Path, share: bool, host: Option<Path>, io: Io) returns (outcome: Option<ShareOutcome>)
      modifies this
      ensures (files, outcome) == SetSharing(old(files), root, share, host, io)
    {
      var creds := CredentialsPath(root);
      if !Exists(files, root) {
        return Some(if share then Shared else Private);
      }
      if !share {
        var ok := Remove(creds, io.remove);
        if !ok {
          return None;
        }
        ok := Write(creds, "", io.credentials);
        if !ok {
          return None;
        }
        return Some(Private);
      }
      if host.None? || !Exists(files, host.value) {
        return Some(Unavailable);
      }
      if PointsAt(files, creds, host) {
        return Some(Shared);
      }
      var ok := Remove(creds, io.remove);
      if !ok {
        return None;
      }
      ok := Symlink(host.value, creds, io.link);
      if ok {
        return Some(Shared);
      }
      ok := Write(creds, "", io.credentials);
      if !ok {
        return None;
      }
      return Some(Unavailable);
    }
  }

  // ---------------------------------------------------------------- nothing existing is touched

  /** Every node of one file system is in another, unchanged. */
  ghost predicate Keeps(fs: Files, next: Files) {
    forall p :: p in fs ==> p in next && next[p] == fs[p]
  }

  lemma {:induction false} KeepsResolution(fs: Files, next: Files, p: Path, seen: set<Path>)
    requires Keeps(fs, next) && EndOf(fs, p, seen).Found?
    ensures EndOf(next, p, seen) == EndOf(fs, p, seen)
  {
    FoundOnChain(fs, p, seen);
    ChainFrame(fs, next, p, seen);
  }

  lemma SettingsKeep(fs: Files, root: Path, model: Option<string>, io: Io)
    ensures Keeps(fs, WithSettings(fs, root, model, io).0)
    ensures WithSettings(fs, root, model, io).1.Some? && model.Some? ==> Exists(WithSettings(fs, root, model, io).0, SettingsPath(root))
  {
    var p := SettingsPath(root);
    if model.Some? && Resolve(fs, p).Missing? {
      FileAppears(fs, Resolve(fs, p).path, File(SettingsDocument(model.value)), p, {});
    }
  }

  lemma CredentialsKeep(fs: Files, root: Path, share: bool, host: Option<Path>, io: Io)
    ensures Keeps(fs, WithCredentials(fs, root, share, host, io).0)
    ensures WithCredentials(fs, root, share, host, io).1.Some? ==> Exists(WithCredentials(fs, root, share, host, io).0, CredentialsPath(root))
  {
    var creds := CredentialsPath(root);
    if !Exists(fs, creds) {
      if share && host.Some? && Exists(fs, host.value) && io.link && creds !in fs {
        FreshLink(fs, host.value, creds);
      } else if Resolve(fs, creds).Missing? {
        FileAppears(fs, Resolve(fs, creds).path, File(""), creds, {});
      }
    }
  }

  /** Provisioning adds; it changes and removes nothing, whether it succeeds or not. */
  lemma ProvisionKeeps(fs: Files, root: Path, model: Option<string>, share: bool, host: Option<Path>, io: Io)
    ensures Keeps(fs, Provision(fs, root, model, share, host, io).0)
  {
    match MakeDir(fs, root, io.dir)
    case None =>
    case Some(fs1) =>
      SettingsKeep(fs1, root, model, io);
      CredentialsKeep(WithSettings(fs1, root, model, io).0, root, share, host, io);
  }

  /** Changing the sharing touches one directory entry: the instance's credentials file. A
      write after the removal cannot follow a link, because the entry is gone. */
  lemma SetSharingKeeps(fs: Files, root: Path, share: bool, host: Option<Path>, io: Io)
    ensures forall p :: p != CredentialsPath(root) && p in fs ==>
      p in SetSharing(fs, root, share, host, io).0 && SetSharing(fs, root, share, host, io).0[p] == fs[p]
    ensures forall p :: p != CredentialsPath(root) && p !in fs ==> p !in SetSharing(fs, root, share, host, io).0
  {
  }

  // ---------------------------------------------------------------- reports are true

  /** The files as the credentials step finds them. */
  function Settled(fs: Files, root: Path, model: Option<string>, io: Io): Files {
    match MakeDir(fs, root, io.dir)
    case None => fs
    case Some(fs1) => WithSettings(fs1, root, model, io).0
  }

  /** The report will not tell that the credentials are the host's: an existing file leads
      there although sharing was not asked for, or the entry dangles where the host path does. */
  predicate Misreported(fs: Files, root: Path, share: bool, host: Option<Path>) {
    var creds := CredentialsPath(root);
    host.Some? && if Exists(fs, creds) then !share && PointsAt(fs, creds, host) else Resolve(fs, creds) == Resolve(fs, host.value)
  }

  /** A report of shared credentials means that the instance's file leads to the host's. A
      report of credentials that are not shared is true exactly unless they are misreported. */
  lemma ProvisionReportTrue(fs: Files, root: Path, model: Option<string>, share: bool, host: Option<Path>, io: Io)
    requires Provision(fs, root, model, share, host, io).1.Some?
    ensures var (next, report) := Provision(fs, root, model, share, host, io);
            && (report.value.credentialsShared ==> PointsAt(next, CredentialsPath(root), host))
            && (!report.value.credentialsShared ==>
                  (PointsAt(next, CredentialsPath(root), host) <==> Misreported(Settled(fs, root, model, io), root, share, host)))
  {
    CredentialsReportTrue(Settled(fs, root, model, io), root, share, host, io);
  }

  lemma CredentialsReportTrue(fs: Files, root: Path, share: bool, host: Option<Path>, io: Io)
    requires WithCredentials(fs, root, share, host, io).1.Some?
    ensures var (next, flags) := WithCredentials(fs, root, share, host, io);
            && (flags.value.1 ==> PointsAt(next, CredentialsPath(root), host))
            && (!flags.value.1 ==> (PointsAt(next, CredentialsPath(root), host) <==> Misreported(fs, root, share, host)))
  {
    var creds := CredentialsPath(root);
    if !Exists(fs, creds) {
      if WithCredentials(fs, root, share, host, io).1 == Some((true, false)) {
        CreatedEnds(fs, root, share, host, io);
      } else {
        FreshLink(fs, host.value, creds);
      }
    }
  }

  /** A private file created through a dangling link is the host's exactly if the host path
      dangles there too. */
  lemma CreatedEnds(fs: Files, root: Path, share: bool, host: Option<Path>, io: Io)
    requires WithCredentials(fs, root, share, host, io).1 == Some((true, false))
    ensures Resolve(fs, CredentialsPath(root)).Missing?
    ensures PointsAt(WithCredentials(fs, root, share, host, io).0, CredentialsPath(root), host)
      <==> host.Some? && Resolve(fs, CredentialsPath(root)) == Resolve(fs, host.value)
  {
    var creds := CredentialsPath(root);
    var q := Resolve(fs, creds).path;
    FileAppears(fs, q, File(""), creds, {});
    if host.Some? {
      FileAppears(fs, q, File(""), host.value, {});
    }
  }

  /** What is missing after the directory and settings steps was missing before. */
  lemma StillMissing(fs: Files, root: Path, model: Option<string>, io: Io, p: Path)
    ensures var fs2 := Settled(fs, root, model, io);
            && (Resolve(fs2, p).Missing? ==> Resolve(fs2, p) == Resolve(fs, p))
            && (Resolve(fs, p).Missing? && Resolve(fs, p).path !in fs2 ==> Resolve(fs2, p) == Resolve(fs, p))
  {
    match MakeDir(fs, root, io.dir)
    case None =>
    case Some(fs1) =>
      if fs1 != fs {
        FileAppears(fs, root, Dir, p, {});
      }
      SettingsMissing(fs1, root, model, io, p);
  }

  lemma SettingsMissing(fs: Files, root: Path, model: Option<string>, io: Io, p: Path)
    ensures var fs2 := WithSettings(fs, root, model, io).0;
            && Keeps(fs, fs2)
            && (Resolve(fs2, p).Missing? ==> Resolve(fs2, p) == Resolve(fs, p))
            && (Resolve(fs, p).Missing? && Resolve(fs, p).path !in fs2 ==> Resolve(fs2, p) == Resolve(fs, p))
  {
    var settings := SettingsPath(root);
    if WithSettings(fs, root, model, io).0 != fs {
      FileAppears(fs, Resolve(fs, settings).path, File(SettingsDocument(model.value)), p, {});
    }
  }

  /** The settings file is written exactly when a model was asked for and nothing was there,
      and then following its path finds the document for that model. Credentials that were
      created but are not shared are an empty file, and private exactly unless the entry was
      a dangling way to where the host path leads. */
  lemma ProvisionReportExact(fs: Files, root: Path, model: Option<string>, share: bool, host: Option<Path>, io: Io)
    requires Provision(fs, root, model, share, host, io).1.Some?
    ensures var (next, report) := Provision(fs, root, model, share, host, io);
            var fs1 := MakeDir(fs, root, io.dir).value;
            && (report.value.settingsWritten <==> model.Some? && !Exists(fs1, SettingsPath(root)))
            && (report.value.settingsWritten ==> Holds(next, SettingsPath(root), SettingsDocument(model.value)))
            && (report.value.credentialsCreated && !report.value.credentialsShared ==>
                  && Holds(next, CredentialsPath(root), "")
                  && (PointsAt(next, CredentialsPath(root), host)
                      <==> host.Some? && Resolve(fs, CredentialsPath(root)) == Resolve(fs, host.value)))
  {
    var fs1 := MakeDir(fs, root, io.dir).value;
    var fs2 := WithSettings(fs1, root, model, io).0;
    SettingsHold(fs1, root, model, io);
    CredentialsKeep(fs2, root, share, host, io);
    if model.Some? && !Exists(fs1, SettingsPath(root)) {
      KeepsResolution(fs2, WithCredentials(fs2, root, share, host, io).0, SettingsPath(root), {});
    }
    if WithCredentials(fs2, root, share, host, io).1 == Some((true, false)) {
      CredentialsHold(fs2, root, share, host, io);
      CreatedWhere(fs, root, model, share, host, io);
    }
  }

  lemma CreatedWhere(fs: Files, root: Path, model: Option<string>, share: bool, host: Option<Path>, io: Io)
    requires WithCredentials(Settled(fs, root, model, io), root, share, host, io).1 == Some((true, false))
    ensures PointsAt(WithCredentials(Settled(fs, root, model, io), root, share, host, io).0, CredentialsPath(root), host)
      <==> host.Some? && Resolve(fs, CredentialsPath(root)) == Resolve(fs, host.value)
  {
    CreatedEnds(Settled(fs, root, model, io), root, share, host, io);
    StillMissing(fs, root, model, io, CredentialsPath(root));
    if host.Some? {
      StillMissing(fs, root, model, io, host.value);
    }
  }

  /** Sharing, losing the host's file, and starting again without sharing: the start writes
      through the dangling link, and the file it reports as created and not shared is the
      host's. */
  lemma DanglingLinkCreatesHostFile(root: Path, host: Path, io: Io)
    requires host != root && host != CredentialsPath(root) && io.credentials
    ensures var fs := map[root := Dir, CredentialsPath(root) := Link(host)];
            var (next, report) := Provision(fs, root, None, false, Some(host), io);
            && report == Some(Report(false, true, false))
            && next == fs[host := File("")] && PointsAt(next, CredentialsPath(root), Some(host))
  {
    var creds := CredentialsPath(root);
    var fs := map[root := Dir, creds := Link(host)];
    assert |creds| != |root|;
    assert root in fs && creds in fs && host !in fs;
    assert Resolve(fs, root) == Found(root);
    assert Resolve(fs, creds) == EndOf(fs, host, {} + {creds}) == Missing(host);
    ProvisionReportExact(fs, root, None, false, Some(host), io);
  }

  lemma CredentialsAdd(fs: Files, root: Path, share: bool, host: Option<Path>, io: Io, p: Path)
    requires p in WithCredentials(fs, root, share, host, io).0 && p !in fs
    ensures Resolve(fs, CredentialsPath(root)) == Missing(p)
  {
  }

  lemma SettledAdds(fs: Files, root: Path, model: Option<string>, io: Io, p: Path)
    requires p in Settled(fs, root, model, io) && p !in fs
    ensures p == root || Resolve(fs, SettingsPath(root)) == Missing(p)
  {
    var fs1 := MakeDir(fs, root, io.dir).value;
    if fs1 != fs {
      FileAppears(fs, root, Dir, SettingsPath(root), {});
    }
  }

  /** Provisioning adds entries in three places only: the root, and where the paths of the two
      files led to nothing. */
  lemma ProvisionAdds(fs: Files, root: Path, model: Option<string>, share: bool, host: Option<Path>, io: Io, p: Path)
    requires p in Provision(fs, root, model, share, host, io).0 && p !in fs
    ensures p == root || Resolve(fs, SettingsPath(root)) == Missing(p) || Resolve(fs, CredentialsPath(root)) == Missing(p)
  {
    var fs2 := Settled(fs, root, model, io);
    if p in fs2 {
      SettledAdds(fs, root, model, io, p);
    } else {
      CredentialsAdd(fs2, root, share, host, io, p);
      StillMissing(fs, root, model, io, CredentialsPath(root));
    }
  }

  /** Following the path finds a file with these bytes. */
  predicate Holds(fs: Files, p: Path, bytes: string) {
    Exists(fs, p) && fs[Resolve(fs, p).path] == File(bytes)
  }

  lemma WrittenHolds(fs: Files, p: Path, bytes: string)
    requires Resolve(fs, p).Missing?
    ensures Holds(WriteFile(fs, p, bytes, true).value, p, bytes)
  {
    FileAppears(fs, Resolve(fs, p).path, File(bytes), p, {});
  }

  lemma SettingsHold(fs: Files, root: Path, model: Option<string>, io: Io)
    requires WithSettings(fs, root, model, io).1.Some?
    ensures WithSettings(fs, root, model, io).1 == Some(model.Some? && !Exists(fs, SettingsPath(root)))
    ensures model.Some? && !Exists(fs, SettingsPath(root)) ==>
      Holds(WithSettings(fs, root, model, io).0, SettingsPath(root), SettingsDocument(model.value))
  {
    if model.Some? && !Exists(fs, SettingsPath(root)) {
      WrittenHolds(fs, SettingsPath(root), SettingsDocument(model.value));
    }
  }

  lemma CredentialsHold(fs: Files, root: Path, share: bool, host: Option<Path>, io: Io)
    requires WithCredentials(fs, root, share, host, io).1 == Some((true, false))
    ensures Holds(WithCredentials(fs, root, share, host, io).0, CredentialsPath(root), "")
  {
    WrittenHolds(fs, CredentialsPath(root), "");
  }

  // ---------------------------------------------------------------- what a call achieves

  /** A spec `provider/model` is written as these two. */
  lemma SettingsNamed(provider: string, model: string)
    requires '/' !in provider && provider != "" && model != ""
    ensures SettingsDocument(provider + "/" + model)
         == "agent-default-model:\n  provider: " + provider + "\n  model: " + model + "\n"
  {
    SplitOnceExact(provider, model, '/');
    assert provider + "/" + model == provider + ['/'] + model;
  }

  /** A spec without a slash, or with nothing before or behind its first one, is a model of the
      default provider, slash and all. */
  lemma SettingsDefault(spec: string)
    requires '/' !in spec || spec[0] == '/' || '/' !in spec[..|spec| - 1]
    ensures SettingsDocument(spec) == "agent-default-model:\n  provider: deepseek-official\n  model: " + spec + "\n"
  {
    DefaultProvider(spec);
  }

  lemma DefaultProvider(spec: string)
    requires '/' !in spec || spec[0] == '/' || '/' !in spec[..|spec| - 1]
    ensures SplitModel(spec) == ("deepseek-official", spec)
  {
    if '/' in spec {
      if spec[0] == '/' {
        SplitOnceExact("", spec[1..], '/');
        assert spec == "" + ['/'] + spec[1..];
      } else {
        var front := spec[..|spec| - 1];
        SplitOnceExact(front, "", '/');
        assert spec == front + ['/'] + "";
      }
    }
  }

  /** A link can be put in place of whatever is at a path. */
  predicate Replaceable(fs: Files, p: Path, io: Io) {
    p !in fs || (io.remove && !fs[p].Dir?)
  }

  /** What changing the sharing answers, exactly, where there is a state root: it is shared if
      it was already or the link can be made, unavailable if there is nothing to share or the
      link cannot be made, and private if that was asked for. */
  lemma SharingAnswer(fs: Files, root: Path, share: bool, host: Option<Path>, io: Io)
    requires Exists(fs, root)
    ensures var creds, answer := CredentialsPath(root), SetSharing(fs, root, share, host, io).1;
      var there := host.Some? && Exists(fs, host.value);
      var already := there && PointsAt(fs, creds, host);
      && (answer == Some(Shared) <==> share && there && (already || (Replaceable(fs, creds, io) && io.link)))
      && (answer == Some(Unavailable) <==> share && (!there || (!already && Replaceable(fs, creds, io) && !io.link && io.credentials)))
      && (answer == Some(Private) <==> !share && Replaceable(fs, creds, io) && io.credentials)
  {
    assert CredentialsPath(root) !in fs - {CredentialsPath(root)};
  }

  /** And what it leaves at the instance's credentials path: a link to the host's file, an empty
      file of its own, or if it failed half way nothing. */
  lemma SharingLeaves(fs: Files, root: Path, share: bool, host: Option<Path>, io: Io)
    requires Exists(fs, root)
    ensures var (next, answer) := SetSharing(fs, root, share, host, io);
      var creds := CredentialsPath(root);
      && (answer == Some(Shared) ==> next == if PointsAt(fs, creds, host) then fs else fs[creds := Link(host.value)])
      && (answer == Some(Private) ==> next == fs[creds := File("")])
      && (answer == Some(Unavailable) ==> next == if host.Some? && Exists(fs, host.value) then fs[creds := File("")] else fs)
      && (answer == None ==> next == if Replaceable(fs, creds, io) then fs - {creds} else fs)
  {
    var creds := CredentialsPath(root);
    var gone := fs - {creds};
    assert creds !in gone && (creds !in fs ==> gone == fs);
    assert gone[creds := File("")] == fs[creds := File("")];
    assert host.Some? ==> gone[creds := Link(host.value)] == fs[creds := Link(host.value)];
  }

  /** Before there is a state root nothing is touched. */
  lemma SharingBeforeStart(fs: Files, root: Path, share: bool, host: Option<Path>, io: Io)
    requires !Exists(fs, root)
    ensures SetSharing(fs, root, share, host, io) == (fs, Some(if share then Shared else Private))
  {
  }

  /** What `provision` reports of the credentials, exactly: they are created if nothing is there,
      and shared if that was asked for and either what is there is the host's, or nothing is,
      not even a dangling entry, the host has a file and the link can be made. */
  lemma CredentialsReported(fs: Files, root: Path, model: Option<string>, share: bool, host: Option<Path>, io: Io)
    requires Provision(fs, root, model, share, host, io).1.Some?
    ensures var (next, report) := Provision(fs, root, model, share, host, io);
      var before, creds := Settled(fs, root, model, io), CredentialsPath(root);
      && (report.value.credentialsCreated <==> !Exists(before, creds))
      && (report.value.credentialsShared <==>
            (share && host.Some? && if Exists(before, creds) then PointsAt(before, creds, host)
                                    else Exists(before, host.value) && creds !in before && io.link))
      && (!report.value.credentialsCreated ==> next == before)
      && (report.value.credentialsCreated && report.value.credentialsShared ==> next == before[creds := Link(host.value)])
  {
  }

  /** A file can be written where a path leads, or where it dangles. */
  predicate Writable(fs: Files, p: Path, may: bool) {
    may && match Resolve(fs, p) case Found(q) => fs[q].File? case Missing(_) => true case Loop => false
  }

  /** `provision` fails exactly if the directory, the settings or the private credentials file
      cannot be made where one is called for: a link that fails is no failure. */
  lemma ProvisionFailsIff(fs: Files, root: Path, model: Option<string>, share: bool, host: Option<Path>, io: Io)
    ensures var before, creds := Settled(fs, root, model, io), CredentialsPath(root);
      var made := match Resolve(fs, root) case Found(q) => fs[q].Dir? case Missing(q) => io.dir && q == root case Loop => false;
      var fs1 := if made && !Exists(fs, root) then fs[root := Dir] else fs;
      var linked := share && host.Some? && Exists(before, host.value) && creds !in before && io.link;
      Provision(fs, root, model, share, host, io).1 == None
      <==> || !made
           || (model.Some? && !Exists(fs1, SettingsPath(root)) && !Writable(fs1, SettingsPath(root), io.settings))
           || (!Exists(before, creds) && !linked && !Writable(before, creds, io.credentials))
  {
  }

  /** `SetSharing` answers "shared" truthfully exactly when the state root exists; before it
      does, the answer is a promise about the first start. */
  lemma SharedAnswerIff(fs: Files, root: Path, host: Option<Path>, io: Io)
    requires SetSharing(fs, root, true, host, io).1 == Some(Shared)
    requires !Exists(fs, root) ==> !Exists(fs, CredentialsPath(root))
    ensures PointsAt(SetSharing(fs, root, true, host, io).0, CredentialsPath(root), host) <==> Exists(fs, root)
  {
    var creds := CredentialsPath(root);
    if Exists(fs, root) && !PointsAt(fs, creds, host) {
      HostAvoidsCredentials(fs, creds, host.value);
      var fs1 := RemoveLink(fs, creds, io.remove).value;
      ChainFrame(fs, fs1, host.value, {});
      FreshLink(fs1, host.value, creds);
    }
  }

  /** If the host file exists and the instance's file does not lead to it, the way to the host
      file does not lead through the instance's file. */
  lemma HostAvoidsCredentials(fs: Files, creds: Path, host: Path)
    requires Exists(fs, host) && !PointsAt(fs, creds, Some(host))
    ensures creds !in Chain(fs, host, {})
  {
    if creds in Chain(fs, host, {}) {
      ChainLeadsOn(fs, host, {}, creds);
    }
  }

  /** After sharing is turned off, the instance's file leads to the host's exactly if the host
      path was itself a way to the instance's file. */
  lemma TurnedOffIff(fs: Files, root: Path, host: Path, io: Io)
    requires Exists(fs, root) && SetSharing(fs, root, false, Some(host), io).1 == Some(Private)
    ensures PointsAt(SetSharing(fs, root, false, Some(host), io).0, CredentialsPath(root), Some(host))
       <==> CredentialsPath(root) in Chain(fs, host, {})
  {
    var creds := CredentialsPath(root);
    var next := SetSharing(fs, root, false, Some(host), io).0;
    var fs1 := fs - {creds};
    assert Resolve(fs1, creds) == Missing(creds);
    assert next == fs[creds := File("")];
    FileCutsChain(fs, creds, "", host, {});
    assert Resolve(next, creds) == Found(creds);
    FoundOnChain(fs, host, {});
  }

  // ---------------------------------------------------------------- repeating changes nothing

  /** What is left in place after a successful call. */
  lemma ProvisionLeaves(fs: Files, root: Path, model: Option<string>, share: bool, host: Option<Path>, io: Io)
    requires Provision(fs, root, model, share, host, io).1.Some?
    ensures var next := Provision(fs, root, model, share, host, io).0;
            && Resolve(next, root).Found? && next[Resolve(next, root).path].Dir?
            && (model.Some? ==> Exists(next, SettingsPath(root)))
            && Exists(next, CredentialsPath(root))
  {
    var fs1 := MakeDir(fs, root, io.dir).value;
    var fs2 := WithSettings(fs1, root, model, io).0;
    var fs3 := WithCredentials(fs2, root, share, host, io).0;
    SettingsKeep(fs1, root, model, io);
    CredentialsKeep(fs2, root, share, host, io);
    KeepsResolution(fs1, fs2, root, {});
    KeepsResolution(fs2, fs3, root, {});
    if Exists(fs2, SettingsPath(root)) {
      KeepsResolution(fs2, fs3, SettingsPath(root), {});
    }
  }

  /** Provisioning a root a second time with the same arguments does nothing, whatever the file
      system would allow. */
  lemma ProvisionTwice(fs: Files, root: Path, model: Option<string>, share: bool, host: Option<Path>, io: Io, again: Io)
    requires Provision(fs, root, model, share, host, io).1.Some?
    ensures var next := Provision(fs, root, model, share, host, io).0;
            Provision(next, root, model, share, host, again)
              == (next, Some(Report(false, false, share && PointsAt(next, CredentialsPath(root), host))))
  {
    ProvisionLeaves(fs, root, model, share, host, io);
    NothingToDo(Provision(fs, root, model, share, host, io).0, root, model, share, host, again);
  }

  lemma NothingToDo(fs: Files, root: Path, model: Option<string>, share: bool, host: Option<Path>, io: Io)
    requires Resolve(fs, root).Found? && fs[Resolve(fs, root).path].Dir?
    requires (model.Some? ==> Exists(fs, SettingsPath(root))) && Exists(fs, CredentialsPath(root))
    ensures Provision(fs, root, model, share, host, io)
         == (fs, Some(Report(false, false, share && PointsAt(fs, CredentialsPath(root), host))))
  {
  }

  // ---------------------------------------------------------------- runs

  /** One call on some instance's root. */
  datatype Action =
    | DoProvision(root: Path, model: Option<string>, share: bool, io: Io)
    | DoShare(root: Path, share: bool, io: Io)

  function Act(fs: Files, host: Option<Path>, a: Action): Files {
    match a
    case DoProvision(root, model, share, io) => Provision(fs, root, model, share, host, io).0
    case DoShare(root, share, io) => SetSharing(fs, root, share, host, io).0
  }

  function Run(fs: Files, host: Option<Path>, actions: seq<Action>): Files {
    if actions == [] then fs else Act(Run(fs, host, actions[..|actions| - 1]), host, actions[|actions| - 1])
  }

  /** Over any run, whatever was there stays as it was, the credentials files of the instances
      whose sharing was changed apart: host files, other instances' files, settings. */
  lemma {:induction false} RunKeeps(fs: Files, host: Option<Path>, actions: seq<Action>, p: Path)
    requires p in fs && forall a :: a in actions && a.DoShare? ==> p != CredentialsPath(a.root)
    ensures p in Run(fs, host, actions) && Run(fs, host, actions)[p] == fs[p]
  {
    if actions != [] {
      var front, a := actions[..|actions| - 1], actions[|actions| - 1];
      RunKeeps(fs, host, front, p);
      match a
      case DoProvision(root, model, share, io) => ProvisionKeeps(Run(fs, host, front), root, model, share, host, io);
      case DoShare(root, share, io) => SetSharingKeeps(Run(fs, host, front), root, share, host, io);
    }
  }

  /** A settings file is none of the credentials files, so it keeps its bytes in every run. */
  lemma SettingsKeptInRuns(fs: Files, host: Option<Path>, actions: seq<Action>, root: Path)
    requires SettingsPath(root) in fs
    ensures SettingsPath(root) in Run(fs, host, actions) && Run(fs, host, actions)[SettingsPath(root)] == fs[SettingsPath(root)]
  {
    forall a | a in actions && a.DoShare?
      ensures SettingsPath(root) != CredentialsPath(a.root)
    {
      var s, c := SettingsPath(root), CredentialsPath(a.root);
      assert s[|s| - 7] == 'g' && c[|c| - 7] == 'l';
    }
    RunKeeps(fs, host, actions, SettingsPath(root));
  }

  /** The instance's credentials file is no link, and the host path does not lead through it. */
  ghost predicate Unshared(fs: Files, root: Path, host: Path) {
    && (CredentialsPath(root) in fs ==> !fs[CredentialsPath(root)].Link?)
    && CredentialsPath(root) !in Chain(fs, host, {})
  }

  lemma UnsharedMeaning(fs: Files, root: Path, host: Path)
    requires Unshared(fs, root, host)
    ensures !PointsAt(fs, CredentialsPath(root), Some(host))
  {
    FoundOnChain(fs, host, {});
  }

  lemma UnsharedAfterFile(fs: Files, root: Path, host: Path, q: Path, node: Node)
    requires Unshared(fs, root, host) && q !in fs && !node.Link?
    ensures Unshared(fs[q := node], root, host)
  {
    FileAppears(fs, q, node, host, {});
  }

  /** A link put where nothing was, to a host file that exists, is on nobody's way to it. */
  lemma UnsharedAfterLink(fs: Files, root: Path, host: Path, link: Path)
    requires Unshared(fs, root, host) && link !in fs && Exists(fs, host) && link != CredentialsPath(root)
    ensures Unshared(fs[link := Link(host)], root, host)
  {
    FreshLink(fs, host, link);
  }

  lemma DistinctCredentials(a: Path, b: Path)
    requires a != b
    ensures CredentialsPath(a) != CredentialsPath(b)
  {
    assert CredentialsPath(a)[..|a|] == a;
    assert CredentialsPath(b)[..|b|] == b;
  }

  lemma UnsharedAfterProvision(fs: Files, root: Path, host: Path, a: Action)
    requires Unshared(fs, root, host) && a.DoProvision? && (a.root == root ==> !a.share)
    ensures Unshared(Act(fs, Some(host), a), root, host)
  {
    match MakeDir(fs, a.root, a.io.dir)
    case None =>
    case Some(fs1) =>
      if fs1 != fs {
        UnsharedAfterFile(fs, root, host, a.root, Dir);
      }
      UnsharedAfterSteps(fs1, root, host, a);
  }

  lemma UnsharedAfterSteps(fs: Files, root: Path, host: Path, a: Action)
    requires Unshared(fs, root, host) && a.DoProvision? && (a.root == root ==> !a.share)
    ensures var fs2 := WithSettings(fs, a.root, a.model, a.io).0;
            Unshared(fs2, root, host) && Unshared(WithCredentials(fs2, a.root, a.share, Some(host), a.io).0, root, host)
  {
    var fs2 := WithSettings(fs, a.root, a.model, a.io).0;
    if fs2 != fs {
      UnsharedAfterFile(fs, root, host, Resolve(fs, SettingsPath(a.root)).path, File(SettingsDocument(a.model.value)));
    }
    var creds := CredentialsPath(a.root);
    var fs3 := WithCredentials(fs2, a.root, a.share, Some(host), a.io).0;
    if fs3 != fs2 {
      if a.share && Exists(fs2, host) && a.io.link && creds !in fs2 {
        DistinctCredentials(a.root, root);
        UnsharedAfterLink(fs2, root, host, creds);
      } else {
        UnsharedAfterFile(fs2, root, host, Resolve(fs2, creds).path, File(""));
      }
    }
  }

  lemma UnsharedAfterShare(fs: Files, root: Path, host: Path, a: Action)
    requires Unshared(fs, root, host) && a.DoShare? && (a.root == root ==> !a.share)
    ensures Unshared(Act(fs, Some(host), a), root, host)
  {
    var creds := CredentialsPath(a.root);
    var next := Act(fs, Some(host), a);
    var removed := RemoveLink(fs, creds, a.io.remove);
    if next != fs && removed.Some? {
      var fs1 := removed.value;
      assert creds !in fs1;
      if a.share {
        DistinctCredentials(a.root, root);
        HostAvoidsCredentials(fs, creds, host);
        ChainFrame(fs, fs1, host, {});
        if next != fs1 {
          if a.io.link {
            UnsharedAfterLink(fs1, root, host, creds);
          } else {
            UnsharedAfterFile(fs1, root, host, creds, File(""));
          }
        }
      } else if next == fs1 {
        RemovalCutsChain(fs, creds, host, {});
      } else {
        FileCutsChain(fs, creds, "", host, {});
        assert next == fs[creds := File("")];
      }
    }
  }

  lemma {:induction false} RemovalCutsChain(fs: Files, c: Path, p: Path, seen: set<Path>)
    ensures Chain(fs - {c}, p, seen) <= Chain(fs, p, seen)
    decreases fs.Keys - seen
  {
    if p != c && p in fs && fs[p].Link? && p !in seen {
      RemovalCutsChain(fs, c, fs[p].target, seen + {p});
    }
  }

  /** Once sharing has been turned off, no run of further calls, on this root or any other,
      makes the instance's file lead to the host's, until a call asks to share this root. */
  lemma {:induction false} TurnedOffStaysOff(fs: Files, root: Path, host: Path, io: Io, actions: seq<Action>)
    requires Exists(fs, root) && SetSharing(fs, root, false, Some(host), io).1 == Some(Private)
    requires CredentialsPath(root) !in Chain(fs, host, {})
    requires forall a :: a in actions && a.root == root ==> !a.share
    ensures !PointsAt(Run(SetSharing(fs, root, false, Some(host), io).0, Some(host), actions), CredentialsPath(root), Some(host))
  {
    var creds := CredentialsPath(root);
    var off := SetSharing(fs, root, false, Some(host), io).0;
    assert Resolve(fs - {creds}, creds) == Missing(creds);
    assert off == fs[creds := File("")];
    FileCutsChain(fs, creds, "", host, {});
    StaysUnshared(off, root, host, actions);
    UnsharedMeaning(Run(off, Some(host), actions), root, host);
  }

  lemma {:induction false} StaysUnshared(fs: Files, root: Path, host: Path, actions: seq<Action>)
    requires Unshared(fs, root, host) && forall a :: a in actions && a.root == root ==> !a.share
    ensures Unshared(Run(fs, Some(host), actions), root, host)
  {
    if actions != [] {
      var front, a := actions[..|actions| - 1], actions[|actions| - 1];
      StaysUnshared(fs, root, host, front);
      if a.DoProvision? {
        UnsharedAfterProvision(Run(fs, Some(host), front), root, host, a);
      } else {
        UnsharedAfterShare(Run(fs, Some(host), front), root, host, a);
      }
    }
  }
}

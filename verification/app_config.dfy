/**
 Models `AppConfig`: the run configuration, a record of three flags and the
 target location, with fixed defaults and the derived decision whether a
 backup copy is taken before a file is processed.
 */
module AppConfig {
  import opened Results

  /** The target location's `java.net.URI`, kept as its textual form. */
  type Uri = string

  const DefaultDryRun: bool := true
  const DefaultNoBackups: bool := false
  const DefaultVerbose: bool := true

  /** The mutable Java object as an immutable value; each setter returns the
      updated value. `file` is `None` until it is set, as the Java field is
      `null`. */
  datatype Config = Config(noBackups: bool, dryRun: bool, file: Option<Uri>, verbose: bool)

  /** The package-private constructor `AppConfig()`. */
  function Default(): (c: Config)
    ensures c.dryRun && !c.noBackups && c.verbose && c.file == None
  {
    Config(DefaultNoBackups, DefaultDryRun, None, DefaultVerbose)
  }

  /** `needBackup()`: a backup is taken only when files will really be
      modified and backups were not switched off. */
  predicate NeedBackup(c: Config) {
    !c.dryRun && !c.noBackups
  }

  /** The guard of `FileHandler.save`: the tag is committed to disk unless
      the run is a dry run. */
  predicate WillCommit(c: Config) {
    !c.dryRun
  }

  /** `setNoBackups`: only `noBackups` changes. */
  function SetNoBackups(c: Config, noBackups: bool): (r: Config)
    ensures r.noBackups == noBackups
    ensures r.dryRun == c.dryRun && r.file == c.file && r.verbose == c.verbose
  {
    c.(noBackups := noBackups)
  }

  /** `setDryRun`: only `dryRun` changes. */
  function SetDryRun(c: Config, dryRun: bool): (r: Config)
    ensures r.dryRun == dryRun
    ensures r.noBackups == c.noBackups && r.file == c.file && r.verbose == c.verbose
  {
    c.(dryRun := dryRun)
  }

  /** `setFile`: only `file` changes. */
  function SetFile(c: Config, file: Uri): (r: Config)
    ensures r.file == Some(file)
    ensures r.noBackups == c.noBackups && r.dryRun == c.dryRun && r.verbose == c.verbose
  {
    c.(file := Some(file))
  }

  /** `setVerbose`: only `verbose` changes. */
  function SetVerbose(c: Config, verbose: bool): (r: Config)
    ensures r.verbose == verbose
    ensures r.noBackups == c.noBackups && r.dryRun == c.dryRun && r.file == c.file
  {
    c.(verbose := verbose)
  }

  /** A dry run never asks for a backup, whatever `noBackups` says. */
  lemma DryRunNeedsNoBackup(c: Config)
    requires c.dryRun
    ensures !NeedBackup(c)
    ensures !NeedBackup(SetNoBackups(c, false)) && !NeedBackup(SetNoBackups(c, true))
  {
  }

  /** The default configuration is a dry run, so it never asks for a backup
      and never writes. */
  lemma DefaultNeedsNoBackup()
    ensures !NeedBackup(Default())
    ensures !WillCommit(Default())
  {
  }

  /** A backup is requested only when the commit guard of `save` passes, and
      when the guard passes a backup is requested exactly when backups were
      not switched off. */
  lemma BackupPrecedesCommit(c: Config)
    ensures NeedBackup(c) ==> WillCommit(c)
    ensures WillCommit(c) ==> (NeedBackup(c) <==> !c.noBackups)
  {
  }

  /** The backup decision depends on the two flags only. */
  lemma NeedBackupIgnoresFileAndVerbose(c: Config, file: Uri, verbose: bool)
    ensures NeedBackup(SetFile(c, file)) == NeedBackup(c)
    ensures NeedBackup(SetVerbose(c, verbose)) == NeedBackup(c)
  {
  }

  /** Setting `dryRun` to false and leaving `noBackups` false, as a command
      line without `--dry-run` and `--no-backup` does, asks for a backup. */
  lemma WritingRunBacksUp(c: Config)
    ensures NeedBackup(SetNoBackups(SetDryRun(c, false), false))
    ensures !NeedBackup(SetNoBackups(c, true))
  {
  }

  /** Setting a field to the value it already holds changes nothing, and a
      second setting of the same field overrides the first. */
  lemma SettersOverride(c: Config, a: bool, b: bool, f: Uri, g: Uri)
    ensures SetNoBackups(c, c.noBackups) == c && SetDryRun(c, c.dryRun) == c
    ensures SetVerbose(c, c.verbose) == c
    ensures c.file.Some? ==> SetFile(c, c.file.value) == c
    ensures SetFile(SetFile(c, f), g) == SetFile(c, g)
    ensures SetNoBackups(SetNoBackups(c, a), b) == SetNoBackups(c, b)
    ensures SetDryRun(SetDryRun(c, a), b) == SetDryRun(c, b)
    ensures SetVerbose(SetVerbose(c, a), b) == SetVerbose(c, b)
  {
  }

  /** Setters of different fields commute, so the order in which a builder
      calls them does not matter. */
  lemma SettersCommute(c: Config, a: bool, b: bool, file: Uri)
    ensures SetNoBackups(SetDryRun(c, a), b) == SetDryRun(SetNoBackups(c, b), a)
    ensures SetNoBackups(SetVerbose(c, a), b) == SetVerbose(SetNoBackups(c, b), a)
    ensures SetDryRun(SetVerbose(c, a), b) == SetVerbose(SetDryRun(c, b), a)
    ensures SetFile(SetDryRun(c, a), file) == SetDryRun(SetFile(c, file), a)
    ensures SetFile(SetNoBackups(c, a), file) == SetNoBackups(SetFile(c, file), a)
    ensures SetFile(SetVerbose(c, a), file) == SetVerbose(SetFile(c, file), a)
  {
  }
}

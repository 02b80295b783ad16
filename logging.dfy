/** `src/logging.js`: every line the assistant logs is appended to `0.log` in the log directory,
    and when that file has grown past 5 MiB the numbered logs are shifted up by one. The file
    system is a map from absolute path to contents; the clock reading is a parameter. */
module Logging {
  import opened Wrappers
  import opened Text

  /** `levels`, in order of severity. */
  const Levels: seq<string> := ["debug", "info", "warn", "error"]

  const DefaultLevel: string := "info"

  /** A `0.log` larger than this many bytes (5 MiB) is rotated. */
  const RotationThreshold: nat := 5 * 1024 * 1024

  /** Rotation moves `0.log` … `5.log`, one step each. */
  const Generations: nat := 6

  predicate IsLevel(level: string) {
    level in Levels
  }

  /** `toUpperCase` on the ASCII level names. */
  function UpperStr(s: string): (r: string)
    ensures |r| == |s|
  {
    seq(|s|, i requires 0 <= i < |s| => Upper(s[i]))
  }

  // ---------------------------------------------------------------------------------------
  // Entries

  /** One line of the log, with its parts as they appear in the file. */
  datatype LogEntry = LogEntry(timestamp: string, level: string, message: string)

  function EntryText(e: LogEntry): string {
    e.timestamp + (" [" + (e.level + ("] " + (e.message + "\n"))))
  }

  /** `formatLogEntry(level, message)`, with `new Date().toISOString()` passed in. */
  function FormatLogEntry(timestamp: string, level: string, message: string): string {
    EntryText(LogEntry(timestamp, UpperStr(level), message))
  }

  /** The first position of `c` in `s`, or `|s|`. */
  function Find(s: string, c: char): (r: nat)
    ensures r <= |s|
    ensures r < |s| ==> s[r] == c
  {
    if s == [] then 0 else if s[0] == c then 0 else 1 + Find(s[1..], c)
  }

  /** Reads a line back: the timestamp runs to the first space, the level sits in brackets,
      and the message runs to the final newline. */
  function ParseLogEntry(entry: string): Option<LogEntry> {
    var sp := Find(entry, ' ');
    if sp + 2 > |entry| || entry[sp + 1] != '[' then None
    else
      var rest := entry[sp + 2..];
      var close := Find(rest, ']');
      if close + 3 > |rest| || rest[close + 1] != ' ' || rest[|rest| - 1] != '\n' then None
      else Some(LogEntry(entry[..sp], rest[..close], rest[close + 2..|rest| - 1]))
  }

  lemma {:induction false} FindAt(s: string, c: char, k: nat)
    requires k < |s| && s[k] == c
    requires forall j :: 0 <= j < k ==> s[j] != c
    ensures Find(s, c) == k
  {
    if k > 0 {
      FindAt(s[1..], c, k - 1);
    }
  }

  /** What `ParseLogEntry` reads, once the space and the bracket have been found. */
  lemma ParseSteps(entry: string, sp: nat, close: nat)
    requires Find(entry, ' ') == sp && sp + 2 <= |entry| && entry[sp + 1] == '['
    requires Find(entry[sp + 2..], ']') == close
    requires close + 3 <= |entry[sp + 2..]| && entry[sp + 2..][close + 1] == ' ' && entry[|entry| - 1] == '\n'
    ensures ParseLogEntry(entry) == Some(LogEntry(entry[..sp], entry[sp + 2..][..close], entry[sp + 2..][close + 2..|entry| - sp - 3]))
  {
  }

  /** The first `c` of `w + rest`, when `w` has none and `rest` starts with one. */
  lemma FindAfter(w: string, rest: string, c: char)
    requires forall i :: 0 <= i < |w| ==> w[i] != c
    requires rest != [] && rest[0] == c
    ensures Find(w + rest, c) == |w|
  {
    var t := w + rest;
    forall j | 0 <= j < |w| ensures t[j] != c {
      assert t[j] == w[j];
    }
    FindAt(t, c, |w|);
  }

  /** Every line written for an entry reads back as that entry, whatever the message holds,
      as long as the timestamp has no space and the level no `]`. */
  lemma ParseEntryText(e: LogEntry)
    requires forall i :: 0 <= i < |e.timestamp| ==> e.timestamp[i] != ' '
    requires forall i :: 0 <= i < |e.level| ==> e.level[i] != ']'
    ensures ParseLogEntry(EntryText(e)) == Some(e)
  {
    var ts := e.timestamp;
    var lv := e.level;
    var t := EntryText(e);
    var rest := lv + ("] " + (e.message + "\n"));
    assert t == ts + (" [" + rest);
    FindAfter(ts, " [" + rest, ' ');
    FindAfter(lv, "] " + (e.message + "\n"), ']');
    assert t[|ts| + 1] == '[';
    assert t[|ts| + 2..] == rest;
    assert rest[|lv| + 1] == ' ';
    assert |rest| == |t| - |ts| - 2;
    assert rest[..|lv|] == lv;
    assert rest[|lv| + 2..|rest| - 1] == e.message;
    assert t[..|ts|] == ts;
    ParseSteps(t, |ts|, |lv|);
  }

  /** Every line `formatLogEntry` writes reads back as its timestamp, its upper-cased level and
      its message (an ISO timestamp has no space). */
  lemma ParseFormat(timestamp: string, level: string, message: string)
    requires forall i :: 0 <= i < |timestamp| ==> timestamp[i] != ' '
    requires forall i :: 0 <= i < |level| ==> UpperStr(level)[i] != ']'
    ensures ParseLogEntry(FormatLogEntry(timestamp, level, message)) == Some(LogEntry(timestamp, UpperStr(level), message))
  {
    ParseEntryText(LogEntry(timestamp, UpperStr(level), message));
  }

  /** The line spelled by its parts, read off position by position. */
  lemma Reassemble(entry: string, sp: nat, rest: string, close: nat)
    requires sp + 2 <= |entry| && rest == entry[sp + 2..]
    requires entry[sp] == ' ' && entry[sp + 1] == '['
    requires close + 3 <= |rest| && rest[close] == ']' && rest[close + 1] == ' ' && rest[|rest| - 1] == '\n'
    ensures entry == EntryText(LogEntry(entry[..sp], rest[..close], rest[close + 2..|rest| - 1]))
  {
    var message := rest[close + 2..|rest| - 1];
    var tail := "] " + (message + "\n");
    assert rest[close..] == tail by {
      forall i | 0 <= i < |tail| ensures rest[close..][i] == tail[i] {
        if i >= 2 && i < |tail| - 1 {
          assert tail[i] == message[i - 2];
        }
      }
    }
    assert rest == rest[..close] + rest[close..];
    var head := " [" + rest;
    assert entry[sp..] == head by {
      forall i | 0 <= i < |head| ensures entry[sp..][i] == head[i] {
        if i >= 2 {
          assert head[i] == rest[i - 2];
        }
      }
    }
    assert entry == entry[..sp] + entry[sp..];
  }

  /** Conversely, whatever parses is exactly the line its parts spell. */
  lemma ParseSound(entry: string)
    requires ParseLogEntry(entry).Some?
    ensures EntryText(ParseLogEntry(entry).value) == entry
  {
    var sp := Find(entry, ' ');
    var rest := entry[sp + 2..];
    var close := Find(rest, ']');
    assert ParseLogEntry(entry) == Some(LogEntry(entry[..sp], rest[..close], rest[close + 2..|rest| - 1]));
    Reassemble(entry, sp, rest, close);
  }

  /** The four levels are written as `DEBUG`, `INFO`, `WARN` and `ERROR`. */
  lemma LevelLabels(level: string)
    requires IsLevel(level)
    ensures UpperStr(level) in ["DEBUG", "INFO", "WARN", "ERROR"]
  {
    var u := UpperStr(level);
    if level == "debug" {
      assert u == "DEBUG";
    } else if level == "info" {
      assert u == "INFO";
    } else if level == "warn" {
      assert u == "WARN";
    } else {
      assert u == "ERROR";
    }
  }

  // ---------------------------------------------------------------------------------------
  // Paths and rotation

  /** `path.join(process.env.HOME, '.logs', 'hey-computer')`. */
  function LogDir(home: string): string {
    home + "/.logs/hey-computer"
  }

  /** `<dir>/<i>.log`. */
  function LogName(dir: string, i: nat): string {
    dir + "/" + NatToString(i) + ".log"
  }

  /** `DEFAULT_LOG_FILE`. */
  function LogFile(home: string): string {
    LogName(LogDir(home), 0)
  }

  lemma DigitCharInjective(j: nat, k: nat)
    requires j < 10 && k < 10 && DigitChar(j) == DigitChar(k)
    ensures j == k
  {
    assert forall d :: 0 <= d < 10 ==> DigitChar(d) as int == '0' as int + d;
  }

  /** Different numbers name different files of one directory. */
  lemma LogNameInjective(dir: string, j: nat, k: nat)
    requires j < 10 && k < 10 && j != k
    ensures LogName(dir, j) != LogName(dir, k)
  {
    if LogName(dir, j) == LogName(dir, k) {
      assert LogName(dir, j)[|dir| + 1] == DigitChar(j);
      assert LogName(dir, k)[|dir| + 1] == DigitChar(k);
      DigitCharInjective(j, k);
    }
  }

  /** Files of different directories are different files. */
  lemma LogNameDirs(dir: string, other: string, j: nat, k: nat)
    requires j < 10 && k < 10 && dir != other
    ensures LogName(dir, j) != LogName(other, k)
  {
    if |dir| != |other| {
      assert |LogName(dir, j)| == |dir| + 6;
      assert |LogName(other, k)| == |other| + 6;
    } else {
      assert exists i :: 0 <= i < |dir| && dir[i] != other[i];
      var i :| 0 <= i < |dir| && dir[i] != other[i];
      assert LogName(dir, j)[i] == dir[i];
      assert LogName(other, k)[i] == other[i];
    }
  }

  /** `fs.renameSync(src, dest)` when `src` exists, replacing any `dest`. */
  function RenameStep(files: map<string, string>, src: string, dest: string): map<string, string> {
    if src in files then files[dest := files[src]] - {src} else files
  }

  /** The renames `(k).log` to `(k + 1).log` in `dir`, for `k = n - 1` down to `0`. */
  function RenameBelow(files: map<string, string>, dir: string, n: nat): map<string, string>
    decreases n
  {
    if n == 0 then files
    else RenameBelow(RenameStep(files, LogName(dir, n - 1), LogName(dir, n)), dir, n - 1)
  }

  /** The whole rotation of the numbered logs of `dir`. */
  function Rotated(files: map<string, string>, dir: string): map<string, string> {
    RenameBelow(files, dir, Generations)
  }

  /** `p` is present in both maps with the same contents, or in neither. */
  predicate Same(a: map<string, string>, b: map<string, string>, p: string) {
    (p in a <==> p in b) && (p in a ==> a[p] == b[p])
  }

  predicate IsLogName(dir: string, p: string, n: nat) {
    exists k :: 0 <= k <= n && p == LogName(dir, k)
  }

  /** One rename: the source is gone, the destination holds what the source held, and every
      other file is untouched. */
  lemma RenameStepFacts(files: map<string, string>, src: string, dest: string)
    requires src != dest
    ensures src !in RenameStep(files, src, dest)
    ensures src in files ==> dest in RenameStep(files, src, dest) && RenameStep(files, src, dest)[dest] == files[src]
    ensures src !in files ==> RenameStep(files, src, dest) == files
    ensures forall p :: p != src && p != dest ==> Same(files, RenameStep(files, src, dest), p)
  {
  }

  /** The names below `n` differ from the two names of the rename at `n - 1`. */
  lemma LowerNamesDistinct(dir: string, n: nat)
    requires 0 < n < 10
    ensures LogName(dir, n - 1) != LogName(dir, n)
    ensures forall k :: 0 <= k < n - 1 ==> LogName(dir, k) != LogName(dir, n - 1) && LogName(dir, k) != LogName(dir, n)
    ensures !IsLogName(dir, LogName(dir, n), n - 1)
  {
    LogNameInjective(dir, n - 1, n);
    forall k | 0 <= k < n - 1
      ensures LogName(dir, k) != LogName(dir, n - 1) && LogName(dir, k) != LogName(dir, n)
    {
      LogNameInjective(dir, k, n - 1);
      LogNameInjective(dir, k, n);
    }
  }

  /** The renames touch no file but the numbered logs up to `n`. */
  lemma {:induction false} RenameBelowKeepsOthers(files: map<string, string>, dir: string, n: nat)
    requires n < 10
    decreases n
    ensures forall p :: !IsLogName(dir, p, n) ==> Same(files, RenameBelow(files, dir, n), p)
  {
    if n > 0 {
      var src := LogName(dir, n - 1);
      var dest := LogName(dir, n);
      var g := RenameStep(files, src, dest);
      var f := RenameBelow(files, dir, n);
      assert f == RenameBelow(g, dir, n - 1);
      RenameBelowKeepsOthers(g, dir, n - 1);
      LogNameInjective(dir, n - 1, n);
      RenameStepFacts(files, src, dest);
      forall p | !IsLogName(dir, p, n) ensures Same(files, f, p) {
        assert p != src && p != dest;
        assert !IsLogName(dir, p, n - 1);
      }
    }
  }

  /** Renaming from the top down moves every log up by one without overwriting one not yet
      moved: each `k.log` ends up in `(k + 1).log`, a number with nothing below it is left
      empty, `0.log` is gone, and the top file is only replaced by the one below it. */
  lemma {:induction false} RenameBelowShifts(files: map<string, string>, dir: string, n: nat)
    requires n < 10
    decreases n
    ensures forall k :: 0 <= k < n && LogName(dir, k) in files ==>
      LogName(dir, k + 1) in RenameBelow(files, dir, n) && RenameBelow(files, dir, n)[LogName(dir, k + 1)] == files[LogName(dir, k)]
    ensures forall k :: 0 <= k && k + 1 < n && LogName(dir, k) !in files ==> LogName(dir, k + 1) !in RenameBelow(files, dir, n)
    ensures n > 0 ==> LogName(dir, 0) !in RenameBelow(files, dir, n)
    ensures n > 0 && LogName(dir, n - 1) !in files ==> Same(files, RenameBelow(files, dir, n), LogName(dir, n))
  {
    if n > 0 {
      var src := LogName(dir, n - 1);
      var dest := LogName(dir, n);
      var g := RenameStep(files, src, dest);
      var f := RenameBelow(files, dir, n);
      assert f == RenameBelow(g, dir, n - 1);
      RenameBelowShifts(g, dir, n - 1);
      RenameBelowKeepsOthers(g, dir, n - 1);
      LowerNamesDistinct(dir, n);
      RenameStepFacts(files, src, dest);
      assert Same(g, f, dest);
      if n == 1 {
        assert f == g;
      }
      forall k | 0 <= k && k + 1 < n && LogName(dir, k) !in files
        ensures LogName(dir, k + 1) !in f
      {
        assert LogName(dir, k) !in g;
      }
      forall k | 0 <= k < n && LogName(dir, k) in files
        ensures LogName(dir, k + 1) in f && f[LogName(dir, k + 1)] == files[LogName(dir, k)]
      {
        if k < n - 1 {
          assert Same(files, g, LogName(dir, k));
        }
      }
    }
  }

  /** The rotation of `src/logging.js`: every old `k.log` for `k` up to 5 is now `(k + 1).log`,
      `0.log` is gone, and nothing but `0.log` … `6.log` is touched. */
  lemma RotationShifts(files: map<string, string>, dir: string)
    ensures forall k :: 0 <= k < Generations && LogName(dir, k) in files ==>
      LogName(dir, k + 1) in Rotated(files, dir) && Rotated(files, dir)[LogName(dir, k + 1)] == files[LogName(dir, k)]
    ensures LogName(dir, 0) !in Rotated(files, dir)
    ensures forall p :: !IsLogName(dir, p, Generations) ==> Same(files, Rotated(files, dir), p)
  {
    RenameBelowShifts(files, dir, Generations);
    RenameBelowKeepsOthers(files, dir, Generations);
  }

  /** Rotation is due when `0.log` exists and is larger than 5 MiB (contents counted one unit
      per character). */
  predicate RotationDue(files: map<string, string>, home: string) {
    LogFile(home) in files && |files[LogFile(home)]| > RotationThreshold
  }

  /** `fs.appendFileSync(path, entry)`: creates the file when it is missing; `fails` stands for
      an error thrown by the file system, which leaves everything as it was. */
  function Appended(files: map<string, string>, path: string, entry: string, fails: bool): map<string, string> {
    if fails then files else files[path := (if path in files then files[path] else "") + entry]
  }

  /** As written, `maybeRenameFiles` checks `0.log` in the log directory but renames the
      relative names `0.log` … `5.log`, which resolve in the working directory. Outside the log
      directory the oversized log file is left where it is, so rotation is due again on the next
      call. */
  lemma AsWrittenKeepsLogFile(files: map<string, string>, home: string, cwd: string)
    requires cwd != LogDir(home)
    requires RotationDue(files, home)
    ensures Same(files, Rotated(files, cwd), LogFile(home))
    ensures RotationDue(Rotated(files, cwd), home)
  {
    RotationShifts(files, cwd);
    assert !IsLogName(cwd, LogFile(home), Generations) by {
      forall k | 0 <= k <= Generations ensures LogFile(home) != LogName(cwd, k) {
        LogNameDirs(LogDir(home), cwd, 0, k);
      }
    }
  }

  /** Renaming inside the log directory, as intended, moves the oversized log to `1.log` and
      leaves no `0.log`, so the next entry starts a fresh file. */
  lemma RotationInLogDirEmptiesLogFile(files: map<string, string>, home: string)
    requires RotationDue(files, home)
    ensures LogFile(home) !in Rotated(files, LogDir(home))
    ensures LogName(LogDir(home), 1) in Rotated(files, LogDir(home))
    ensures Rotated(files, LogDir(home))[LogName(LogDir(home), 1)] == files[LogFile(home)]
    ensures !RotationDue(Rotated(files, LogDir(home)), home)
  {
    RotationShifts(files, LogDir(home));
  }

  /** The disk as the logger sees it. `home` and `cwd` are read once, as `process.env.HOME` at
      load time and `process.cwd()`. */
  class FileSystem {
    var files: map<string, string>
    const home: string
    const cwd: string

    constructor(files: map<string, string>, home: string, cwd: string)
      ensures this.files == files && this.home == home && this.cwd == cwd
    {
      this.files := files;
      this.home := home;
      this.cwd := cwd;
    }

    /** The rename loop, from `5.log` down to `0.log`, each file moved only when it exists. */
    method RotateIn(dir: string)
      modifies this
      ensures files == Rotated(old(files), dir)
    {
      var i: int := Generations - 1;
      while i >= 0
        invariant -1 <= i < Generations
        invariant RenameBelow(files, dir, i + 1) == Rotated(old(files), dir)
      {
        var src := LogName(dir, i);
        var dest := LogName(dir, i + 1);
        if src in files {
          files := files[dest := files[src]] - {src};
        }
        i := i - 1;
      }
    }

    /** `maybeRenameFiles` as written: the size check is on the log directory's `0.log`, the
        renames are in the working directory. */
    method MaybeRenameFiles()
      modifies this
      ensures files == if RotationDue(old(files), home) then Rotated(old(files), cwd) else old(files)
    {
      var originalFile := LogFile(home);
      if originalFile in files {
        var fileSize := |files[originalFile]|;
        if fileSize > RotationThreshold {
          RotateIn(cwd);
        }
      }
    }

    /** `maybeRenameFiles` with the renames in the log directory, as intended. */
    method MaybeRenameLogFiles()
      modifies this
      ensures files == if RotationDue(old(files), home) then Rotated(old(files), LogDir(home)) else old(files)
    {
      var originalFile := LogFile(home);
      if originalFile in files {
        var fileSize := |files[originalFile]|;
        if fileSize > RotationThreshold {
          RotateIn(LogDir(home));
        }
      }
    }

    /** `log(message, level)`: `None` is the default level. An unknown level throws before
        anything is written; otherwise the entry is appended (a failed append is only reported)
        and rotation is attempted either way. */
    method Log(message: string, level: Option<string>, timestamp: string, appendFails: bool)
      returns (r: Result<(), JsError>)
      modifies this
      ensures var lvl := if level.Some? then level.value else DefaultLevel;
        !IsLevel(lvl) ==> r == Err(ThrownError("Invalid log level:")) && files == old(files)
      ensures var lvl := if level.Some? then level.value else DefaultLevel;
        IsLevel(lvl) ==> r == Ok(()) && files == AfterLog(old(files), home, FormatLogEntry(timestamp, lvl, message), appendFails)
    {
      var lvl := if level.Some? then level.value else DefaultLevel;
      if lvl !in Levels {
        return Err(ThrownError("Invalid log level:"));
      }
      var logEntry := FormatLogEntry(timestamp, lvl, message);
      if !appendFails {
        var path := LogFile(home);
        files := files[path := (if path in files then files[path] else "") + logEntry];
      }
      MaybeRenameLogFiles();
      r := Ok(());
    }
  }

  /** `entry` is the end of `s`. */
  predicate EndsWith(s: string, entry: string) {
    |entry| <= |s| && s[|s| - |entry|..] == entry
  }

  /** The disk after `log` has written `entry` (or failed to) and attempted rotation. */
  function AfterLog(files: map<string, string>, home: string, entry: string, appendFails: bool): map<string, string> {
    var written := Appended(files, LogFile(home), entry, appendFails);
    if RotationDue(written, home) then Rotated(written, LogDir(home)) else written
  }

  /** After a successful append, the entry is the end of `0.log`, or, when the append made
      rotation due, the end of `1.log`, with no `0.log` left. */
  lemma LoggedLineKept(files: map<string, string>, home: string, entry: string)
    ensures var written := Appended(files, LogFile(home), entry, false);
      var after := AfterLog(files, home, entry, false);
      if RotationDue(written, home) then
        LogFile(home) !in after && LogName(LogDir(home), 1) in after && EndsWith(after[LogName(LogDir(home), 1)], entry)
      else
        LogFile(home) in after && EndsWith(after[LogFile(home)], entry)
  {
    var written := Appended(files, LogFile(home), entry, false);
    var before := if LogFile(home) in files then files[LogFile(home)] else "";
    assert written[LogFile(home)] == before + entry;
    assert EndsWith(before + entry, entry) by {
      assert (before + entry)[|before|..] == entry;
    }
    if RotationDue(written, home) {
      RotationInLogDirEmptiesLogFile(written, home);
    }
  }

  /** The disk after `log` as written: the rotation, when due, renames in the working directory
      `cwd`. */
  function AfterLogAsWritten(files: map<string, string>, home: string, cwd: string, entry: string, appendFails: bool): map<string, string> {
    var written := Appended(files, LogFile(home), entry, appendFails);
    if RotationDue(written, home) then Rotated(written, cwd) else written
  }

  /** As written, run outside the log directory, a successfully appended entry stays at the end
      of the log directory's `0.log` whether or not rotation was due, and an oversized log stays
      oversized. */
  lemma LoggedLineKeptAsWritten(files: map<string, string>, home: string, cwd: string, entry: string)
    requires cwd != LogDir(home)
    ensures var after := AfterLogAsWritten(files, home, cwd, entry, false);
      LogFile(home) in after && EndsWith(after[LogFile(home)], entry)
    ensures RotationDue(Appended(files, LogFile(home), entry, false), home) ==>
      RotationDue(AfterLogAsWritten(files, home, cwd, entry, false), home)
  {
    var written := Appended(files, LogFile(home), entry, false);
    var before := if LogFile(home) in files then files[LogFile(home)] else "";
    assert written[LogFile(home)] == before + entry;
    assert EndsWith(before + entry, entry) by {
      assert (before + entry)[|before|..] == entry;
    }
    if RotationDue(written, home) {
      AsWrittenKeepsLogFile(written, home, cwd);
    }
  }
}

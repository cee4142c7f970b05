/**
 The names under which prints are stored, looked for and shown, spelled out: in their order, and for names
 with the extensions that slicers and printers give them.
 */
module PrintNames {
  import opened PyText
  import opened Wrappers
  import Text
  import opened ExpectedPrints
  import opened ActivePrints
  import PrintRestart

  function KeysNamed(printer: int, names: seq<string>): seq<Key> {
    seq(|names|, i requires 0 <= i < |names| => Key(printer, names[i]))
  }

  lemma NamedTogether(printer: int, a: seq<string>, b: seq<string>)
    ensures KeysNamed(printer, a + b) == KeysNamed(printer, a) + KeysNamed(printer, b)
  {}

  // ---------------------------------------------------------------- the lookups in their order

  /** A start asks for the subtask's names first, then for the file's. */
  lemma ProbedInOrder(printer: int, path: string, last: string, subtask: string)
    requires IsLastPart(path, last)
    ensures ProbedKeys(printer, path, subtask)
            == KeysNamed(printer,
                         (if subtask == "" then [] else [subtask, subtask + ".3mf", subtask + ".gcode.3mf"])
                         + if path == "" then [] else [last, Bare(last), Bare(last) + ".3mf"])
  {
    AfterLastSlashExactly(path, last);
    hide AfterLastSlash, Without, IsLastPart;
    NamedTogether(printer, if subtask == "" then [] else [subtask, subtask + ".3mf", subtask + ".gcode.3mf"],
                  if path == "" then [] else [last, Bare(last), Bare(last) + ".3mf"]);
  }

  /** The names a completion tries for a file in a folder, which is empty or ends with a slash. */
  ghost predicate IsInFolder(path: string, folder: string, last: string) {
    path == folder + last && '/' !in last && (folder == "" || folder[|folder| - 1] == '/')
  }

  lemma FolderIsCut(path: string, folder: string, last: string)
    requires IsInFolder(path, folder, last)
    ensures AfterLastSlash(path) == last
  {
    if folder != "" {
      var before := folder[..|folder| - 1];
      assert folder == before + "/";
      assert path == before + "/" + last;
    } else {
      assert path == last;
    }
    AfterLastSlashExactly(path, last);
  }

  function SubtaskNames(subtask: string): seq<string> {
    if subtask == "" then [] else [subtask + ".3mf", subtask + ".gcode.3mf", subtask]
  }

  lemma NamesOfThreeMf(stem: string, both: bool)
    ensures FileNames(stem + ".3mf", both) == [stem + ".3mf"]
  {
    hide DropEnd;
    assert (stem + ".3mf")[|stem|..] == ".3mf";
  }

  lemma NamesOfGcode(stem: string)
    ensures FileNames(stem + ".gcode", true) == [stem + ".gcode.3mf", stem + ".3mf", stem + ".gcode"]
    ensures FileNames(stem + ".gcode", false) == [stem + ".3mf", stem + ".gcode"]
  {
    GcodeEnds(stem);
    hide EndsWith, DropEnd;
  }

  lemma GcodeEnds(stem: string)
    ensures var name := stem + ".gcode";
            !EndsWith(name, ".3mf") && EndsWith(name, ".gcode") && DropEnd(name, 6) == stem
  {
    var name := stem + ".gcode";
    assert name[|name| - 4..] == "code" && "code"[0] != ".3mf"[0];
    assert name[|stem|..] == ".gcode" && name[..|stem|] == stem;
  }

  /** The subtask's names come first, then those of the file, then those of its path. */
  lemma TriedInOrder(printer: int, path: string, last: string, subtask: string)
    requires path != "" && AfterLastSlash(path) == last
    ensures CompletionKeys(printer, path, subtask)
            == KeysNamed(printer, SubtaskNames(subtask) + (FileNames(last, true) + FileNames(path, false)))
  {
    hide FileNames, AfterLastSlash;
    NamedTogether(printer, FileNames(last, true), FileNames(path, false));
    NamedTogether(printer, SubtaskNames(subtask), FileNames(last, true) + FileNames(path, false));
  }

  lemma PathSplits(path: string, folder: string, stem: string, extension: string)
    requires IsInFolder(path, folder, stem + extension) && extension != ""
    ensures path == folder + stem + extension && path != ""
  {}

  /** For a 3MF: its name and its path. */
  lemma TriedForThreeMf(printer: int, path: string, folder: string, stem: string, subtask: string)
    requires IsInFolder(path, folder, stem + ".3mf")
    ensures CompletionKeys(printer, path, subtask) == KeysNamed(printer, SubtaskNames(subtask) + [stem + ".3mf", path])
  {
    hide *;
    PathSplits(path, folder, stem, ".3mf");
    FolderIsCut(path, folder, stem + ".3mf");
    TriedInOrder(printer, path, stem + ".3mf", subtask);
    NamesOfThreeMf(stem, true);
    NamesOfThreeMf(folder + stem, false);
    assert [stem + ".3mf"] + [path] == [stem + ".3mf", path];
  }

  /** For G-code: with both extensions a 3MF may have, as it is, and the path likewise but for the longer one. */
  lemma TriedForGcode(printer: int, path: string, folder: string, stem: string, subtask: string)
    requires IsInFolder(path, folder, stem + ".gcode")
    ensures CompletionKeys(printer, path, subtask)
            == KeysNamed(printer, SubtaskNames(subtask)
                                  + [stem + ".gcode.3mf", stem + ".3mf", stem + ".gcode", folder + stem + ".3mf", path])
  {
    hide *;
    PathSplits(path, folder, stem, ".gcode");
    FolderIsCut(path, folder, stem + ".gcode");
    TriedInOrder(printer, path, stem + ".gcode", subtask);
    NamesOfGcode(stem);
    NamesOfGcode(folder + stem);
    FiveNames(stem + ".gcode.3mf", stem + ".3mf", stem + ".gcode", folder + stem + ".3mf", path);
  }

  lemma FiveNames(a: string, b: string, c: string, d: string, e: string)
    ensures [a, b, c] + [d, e] == [a, b, c, d, e]
  {}

  /** For any other file: its name with both extensions and as it is, and the path likewise. */
  lemma TriedForOther(printer: int, path: string, folder: string, last: string, subtask: string)
    requires IsInFolder(path, folder, last) && path != ""
    requires !EndsWith(last, ".3mf") && !EndsWith(last, ".gcode")
    requires !EndsWith(path, ".3mf") && !EndsWith(path, ".gcode")
    ensures CompletionKeys(printer, path, subtask)
            == KeysNamed(printer, SubtaskNames(subtask)
                                  + [last + ".gcode.3mf", last + ".3mf", last, path + ".3mf", path])
  {
    hide *;
    FolderIsCut(path, folder, last);
    TriedInOrder(printer, path, last, subtask);
    NamesOfOther(last);
    NamesOfOther(path);
    FiveNames(last + ".gcode.3mf", last + ".3mf", last, path + ".3mf", path);
  }

  lemma NamesOfOther(name: string)
    requires !EndsWith(name, ".3mf") && !EndsWith(name, ".gcode")
    ensures FileNames(name, true) == [name + ".gcode.3mf", name + ".3mf", name]
    ensures FileNames(name, false) == [name + ".3mf", name]
  {
    hide EndsWith;
  }

  // ---------------------------------------------------------------- what a start stores

  /** The names that lead to a job's archive once it has started. */
  ghost predicate IsStoredAs(job: Job, name: string) {
    || (job.subtask != "" && name == job.subtask + ".3mf")
    || match job.path
       case Dispatched(file) => name == file
       case Archived(file) => name == file || (name == job.filename && job.filename != "")
       case Fallback =>
         || (job.filename != "" && name == job.filename)
         || (job.subtask != "" && name == job.subtask)
         || (job.filename == "" && name == PrintName("", job.subtask) + ".3mf")
  }

  lemma StoredExactly(active: Active, job: Job, k: Key)
    ensures var after := Track(active, job);
            if k.printer == job.printer && IsStoredAs(job, k.name) then k in after && after[k] == job.archive
            else (k in after <==> k in active) && (k in after ==> after[k] == active[k])
  {
    hide PrintName;
    assert k in KeysOf(job) <==> k.printer == job.printer && IsStoredAs(job, k.name);
  }

  // ---------------------------------------------------------------- extensions

  /** In a name without dots before its extension only the extension can contain one. */
  lemma {:induction false} WithoutInExtension(base: string, extension: string, part: string)
    requires '.' !in base && part != "" && part[0] == '.'
    ensures Without(base + extension, part) == base + Without(extension, part)
  {
    if base == "" {
      assert base + extension == extension;
    } else {
      assert (base + extension)[0] == base[0] && (base + extension)[1..] == base[1..] + extension;
      WithoutInExtension(base[1..], extension, part);
      assert base == [base[0]] + base[1..];
    }
  }

  lemma ExtensionsAlone()
    ensures Without(".gcode.3mf", ".gcode.3mf") == "" && Without(".gcode.3mf", ".gcode") == ".3mf"
    ensures Without(".gcode", ".gcode") == "" && Without(".3mf", ".3mf") == ""
    ensures Without(".3mf", ".gcode") == ".3mf" && Without(".3mf", ".gcode.3mf") == ".3mf"
    ensures Without(".gcode", ".gcode.3mf") == ".gcode" && Without("", ".3mf") == ""
    ensures Without("", ".gcode.3mf") == "" && Without("", ".gcode") == ""
  {
    WithoutFirst("", ".gcode.3mf", "");
    WithoutFirst("", ".gcode", ".3mf");
    assert "" + ".gcode.3mf" + "" == ".gcode.3mf" && "" + ".gcode" + ".3mf" == ".gcode.3mf";
    SuffixAlone(".gcode", ".gcode");
    SuffixAlone(".3mf", ".3mf");
    SuffixAlone(".gcode", ".3mf");
    WithoutShort(".3mf", ".gcode.3mf");
    WithoutShort(".gcode", ".gcode.3mf");
  }

  lemma WithoutShort(s: string, part: string)
    requires |s| < |part|
    ensures Without(s, part) == s
  {
    WithoutNothing(s, part);
  }

  predicate IsExtension(extension: string) {
    extension in ["", ".gcode", ".3mf", ".gcode.3mf"]
  }

  /** The three removals in their order, for a part of a name after its last dotless piece. */
  lemma RemovedOneByOne(base: string, first: string, second: string, third: string)
    requires '.' !in base
    requires Without(first, ".gcode.3mf") == second && Without(second, ".gcode") == third
    requires Without(third, ".3mf") == ""
    ensures Without(Without(Without(base + first, ".gcode.3mf"), ".gcode"), ".3mf") == base
  {
    hide Without;
    WithoutInExtension(base, first, ".gcode.3mf");
    WithoutInExtension(base, second, ".gcode");
    WithoutInExtension(base, third, ".3mf");
    assert base + "" == base;
  }

  lemma ExtensionGoes(base: string, extension: string)
    requires '.' !in base && IsExtension(extension)
    ensures Without(Without(Without(base + extension, ".gcode.3mf"), ".gcode"), ".3mf") == base
  {
    hide Without;
    ExtensionsAlone();
    if extension == "" {
      RemovedOneByOne(base, "", "", "");
    } else if extension == ".gcode" {
      RemovedOneByOne(base, ".gcode", ".gcode", "");
    } else if extension == ".3mf" {
      RemovedOneByOne(base, ".3mf", ".3mf", ".3mf");
    } else {
      RemovedOneByOne(base, ".gcode.3mf", "", "");
    }
  }

  /** `base` is the name of a print in a path: the last part without the extension of a print file. */
  ghost predicate IsPlainIn(path: string, folder: string, base: string, extension: string) {
    IsInFolder(path, folder, base + extension) && '.' !in base && IsExtension(extension)
  }

  lemma RemovedTwice(base: string, first: string, second: string)
    requires '.' !in base && Without(first, ".gcode") == second && Without(second, ".3mf") == ""
    ensures Without(Without(base + first, ".gcode"), ".3mf") == base
  {
    hide Without;
    WithoutInExtension(base, first, ".gcode");
    WithoutInExtension(base, second, ".3mf");
    assert base + "" == base;
  }

  lemma BareExtension(base: string, extension: string)
    requires '.' !in base && IsExtension(extension)
    ensures Without(Without(base + extension, ".gcode"), ".3mf") == base
  {
    hide Without;
    ExtensionsAlone();
    if extension == "" {
      RemovedTwice(base, "", "");
    } else if extension == ".gcode" {
      RemovedTwice(base, ".gcode", "");
    } else if extension == ".3mf" {
      RemovedTwice(base, ".3mf", ".3mf");
    } else {
      RemovedTwice(base, ".gcode.3mf", ".3mf");
    }
  }

  lemma PlainIsBare(path: string, folder: string, base: string, extension: string)
    requires IsPlainIn(path, folder, base, extension)
    ensures Without(Without(AfterLastSlash(path), ".gcode"), ".3mf") == base
  {
    FolderIsCut(path, folder, base + extension);
    BareExtension(base, extension);
    hide Without, AfterLastSlash, IsInFolder;
  }

  /** A fallback archive is called after the subtask, or else the file, or else unknown. */
  lemma FallbackIsNamed(name: string, folder: string, base: string, extension: string, filename: string)
    requires IsPlainIn(name, folder, base, extension) && name != ""
    ensures PrintName(filename, name) == base && PrintName(name, "") == base && PrintName("", "") == "Unknown Print"
  {
    FolderIsCut(name, folder, base + extension);
    ExtensionGoes(base, extension);
    hide Without, AfterLastSlash, IsPlainIn;
  }

  /** Rows are looked up by the subtask as it is, or else by the name of the file. */
  lemma RowsAreSought(job: PrintRestart.Job, folder: string, base: string, extension: string)
    requires IsPlainIn(job.filename, folder, base, extension)
    ensures PrintRestart.CheckName(job) == if job.subtask != "" then job.subtask else base
  {
    PlainIsBare(job.filename, folder, base, extension);
    hide Without, AfterLastSlash, IsPlainIn;
  }

  // ---------------------------------------------------------------- the names of a new archive

  lemma EndsInAnyCase(name: string, extension: string)
    ensures EndsWith(Text.LowerAll(name), extension)
            <==> |extension| <= |name| && Text.LowerAll(name[|name| - |extension|..]) == extension
  {
    if |extension| <= |name| {
      assert Text.LowerAll(name)[|name| - |extension|..] == Text.LowerAll(name[|name| - |extension|..]);
    }
  }

  /** `ending` is the end of `name` in some case. */
  ghost predicate EndsAlike(name: string, ending: string) {
    exists front, back :: name == front + back && Text.LowerAll(back) == ending
  }

  lemma EndsAlikeExactly(name: string, extension: string)
    ensures EndsWith(Text.LowerAll(name), extension) <==> EndsAlike(name, extension)
  {
    EndsInAnyCase(name, extension);
    hide EndsWith;
    if EndsWith(Text.LowerAll(name), extension) {
      assert name == DropEnd(name, |extension|) + name[|name| - |extension|..];
    }
    if front, back :| name == front + back && Text.LowerAll(back) == extension {
      assert |back| == |extension| && name[|name| - |extension|..] == back;
    }
  }

  /** Of the three extensions, written in any case, the longest that fits goes. */
  lemma DisplayedExactly(stem: string, extension: string)
    requires Text.LowerAll(extension) in [".gcode.3mf", ".3mf", ".gcode"]
    requires Text.LowerAll(extension) == ".3mf" ==> !EndsAlike(stem, ".gcode")
    ensures PrintRestart.DisplayStem(stem + extension) == stem
  {
    var name, lower := stem + extension, Text.LowerAll(extension);
    assert |lower| == |extension| && name[|stem|..] == extension && name[..|stem|] == stem;
    EndsInAnyCase(name, ".gcode.3mf");
    EndsInAnyCase(name, ".3mf");
    EndsInAnyCase(name, ".gcode");
    assert ".gcode.3mf"[6..] == ".3mf";
    if lower == ".3mf" && EndsWith(Text.LowerAll(name), ".gcode.3mf") {
      LongEndSplits(stem, extension);
    }
    if lower == ".gcode" {
      assert Text.LowerAll(name)[|name| - 4] == 'c';
    }
    hide Text.LowerAll;
  }

  lemma LongEndSplits(stem: string, extension: string)
    requires |extension| == 4 && EndsWith(Text.LowerAll(stem + extension), ".gcode.3mf")
    ensures EndsAlike(stem, ".gcode")
  {
    var name := stem + extension;
    EndsInAnyCase(name, ".gcode.3mf");
    var back := name[|name| - 10..];
    var front := stem[..|stem| - 6];
    assert stem == front + back[..6];
    assert Text.LowerAll(back[..6]) == Text.LowerAll(back)[..6] == ".gcode.3mf"[..6] == ".gcode";
  }

  /** Of any other name the last suffix goes. */
  lemma OthersLoseSuffix(front: string, back: string)
    requires var name := front + "." + back;
             !EndsAlike(name, ".gcode.3mf") && !EndsAlike(name, ".3mf") && !EndsAlike(name, ".gcode")
    requires '.' !in back && front != "" && back != ""
    ensures PrintRestart.DisplayStem(front + "." + back) == front
  {
    var name := front + "." + back;
    EndsAlikeExactly(name, ".gcode.3mf");
    EndsAlikeExactly(name, ".3mf");
    EndsAlikeExactly(name, ".gcode");
    SuffixIsDropped(front, back);
    hide EndsWith, EndsAlike, Stem;
  }

  /** A downloaded archive has the file's last part as its name and is shown under the title inside, if any. */
  lemma DownloadIsNamed(job: PrintRestart.Job, file: string, last: string, title: string)
    requires IsLastPart(file, last)
    ensures var names := PrintRestart.NamesOf(job, PrintRestart.Downloaded(file, title));
            names.filename == last && names.printName == if title != "" then title else PrintRestart.DisplayStem(last)
  {
    AfterLastSlashExactly(file, last);
  }

  /** Without a 3MF the archive has the reported file's whole path as its name, and is shown under the subtask's. */
  lemma UntracedIsNamed(job: PrintRestart.Job, folder: string, base: string, extension: string)
    requires IsPlainIn(if job.subtask != "" then job.subtask else job.filename, folder, base, extension)
    requires job.subtask != "" || job.filename != ""
    ensures PrintRestart.NamesOf(job, PrintRestart.Untraced)
            == PrintRestart.Names(if job.filename != "" then job.filename else base + ".3mf", base)
  {
    FallbackIsNamed(if job.subtask != "" then job.subtask else job.filename, folder, base, extension, job.filename);
    hide IsPlainIn, PrintName;
  }

  // ---------------------------------------------------------------- where a 3MF is looked for

  function SubtaskCandidates(subtask: string): seq<string> {
    if subtask == "" then [] else [subtask + ".gcode.3mf", subtask + ".3mf"]
  }

  /** The candidates of a file: itself if it is a 3MF, else its name with both extensions, without `.gcode`. */
  lemma CandidatesOfFile(job: PrintRestart.Job, folder: string, stem: string)
    ensures IsInFolder(job.filename, folder, stem + ".3mf") ==>
              PrintRestart.PlainCandidates(job) == SubtaskCandidates(job.subtask) + [stem + ".3mf"]
    ensures IsInFolder(job.filename, folder, stem + ".gcode") ==>
              PrintRestart.PlainCandidates(job)
              == SubtaskCandidates(job.subtask) + [stem + ".gcode.3mf", stem + ".3mf"]
  {
    if IsInFolder(job.filename, folder, stem + ".3mf") {
      FolderIsCut(job.filename, folder, stem + ".3mf");
      assert EndsWith(stem + ".3mf", ".3mf") by {
        EndsWithExactly(stem + ".3mf", ".3mf");
      }
    }
    if IsInFolder(job.filename, folder, stem + ".gcode") {
      FolderIsCut(job.filename, folder, stem + ".gcode");
      GcodeEnds(stem);
    }
    hide EndsWith, DropEnd, AfterLastSlash;
  }

  lemma CandidatesOfOther(job: PrintRestart.Job, folder: string, last: string)
    requires IsInFolder(job.filename, folder, last) && job.filename != ""
    requires !EndsWith(last, ".3mf") && !EndsWith(last, ".gcode")
    ensures PrintRestart.PlainCandidates(job) == SubtaskCandidates(job.subtask) + [last + ".gcode.3mf", last + ".3mf"]
  {
    FolderIsCut(job.filename, folder, last);
    hide EndsWith, AfterLastSlash;
  }

  /** `file` is `name` with an underscore for every space. */
  predicate HasUnderscores(file: string, name: string) {
    |file| == |name| && forall i | 0 <= i < |name| :: file[i] == if name[i] == ' ' then '_' else name[i]
  }

  /** A file is asked for by each of these names as it is, and with underscores. */
  lemma CandidatesExactly(job: PrintRestart.Job, file: string)
    ensures PrintRestart.IsCandidate(job, file)
            <==> file in PrintRestart.PlainCandidates(job)
                 || exists name | name in PrintRestart.PlainCandidates(job) :: HasUnderscores(file, name)
  {
    hide PrintRestart.PlainCandidates;
    forall name ensures file == PrintRestart.Underscored(name) <==> HasUnderscores(file, name) {
      hide PrintRestart.IsCandidate;
    }
    hide PrintRestart.Underscored, HasUnderscores;
  }

  /** The same letter in either case, or a space and an underscore. */
  predicate AreAlike(c: char, d: char) {
    || Text.Lower(c) == Text.Lower(d) || (c == ' ' && d == '_') || (c == '_' && d == ' ')
  }

  /** `name` occurs in `file` from position `i` on, whatever the case of the letters and the kind of gaps. */
  predicate OccursAlike(file: string, name: string, i: nat) {
    i + |name| <= |file| && forall j | 0 <= j < |name| :: AreAlike(file[i + j], name[j])
  }

  lemma LowerConcat(base: string, extension: string)
    requires IsExtension(extension)
    ensures Text.LowerAll(base + extension) == Text.LowerAll(base) + extension
  {
    assert forall i | 0 <= i < |extension| :: Text.Lower(extension[i]) == extension[i];
  }

  lemma ContainsAlike(file: string, name: string)
    ensures Text.Contains(PrintRestart.Underscored(Text.LowerAll(file)), PrintRestart.Underscored(Text.LowerAll(name)))
            <==> exists i :: OccursAlike(file, name, i)
  {
    var s, t := PrintRestart.Underscored(Text.LowerAll(file)), PrintRestart.Underscored(Text.LowerAll(name));
    forall i | 0 <= i <= |file| ensures t <= s[i..] <==> OccursAlike(file, name, i) {
      hide PrintRestart.Underscored, Text.LowerAll, OccursAlike, AreAlike;
      if i + |name| <= |file| {
        SameWhenAlike(file, name, i);
      } else {
        LengthsStay(file, name);
      }
    }
    LengthsStay(file, name);
    hide PrintRestart.Underscored, Text.LowerAll, AreAlike;
  }

  lemma LengthsStay(file: string, name: string)
    ensures |PrintRestart.Underscored(Text.LowerAll(file))| == |file|
    ensures |PrintRestart.Underscored(Text.LowerAll(name))| == |name|
  {}

  lemma SameWhenAlike(file: string, name: string, i: nat)
    requires i + |name| <= |file|
    ensures PrintRestart.Underscored(Text.LowerAll(name)) <= PrintRestart.Underscored(Text.LowerAll(file))[i..]
            <==> OccursAlike(file, name, i)
  {
    var s, t := PrintRestart.Underscored(Text.LowerAll(file)), PrintRestart.Underscored(Text.LowerAll(name));
    forall j | 0 <= j < |name| ensures t[j] == s[i..][j] <==> AreAlike(file[i + j], name[j]) {}
    assert t <= s[i..] <==> forall j | 0 <= j < |name| :: t[j] == s[i..][j];
  }

  lemma ListedExactly(job: PrintRestart.Job, base: string, extension: string, file: string)
    requires '.' !in base && IsExtension(extension)
    requires (if job.subtask != "" then job.subtask else job.filename) == base + extension
    ensures PrintRestart.IsListed(job, file)
            <==> (exists stem :: file == stem + ".3mf") && exists i :: OccursAlike(file, base, i)
  {
    LowerConcat(base, extension);
    var lower := Text.LowerAll(base);
    assert '.' !in lower by {
      assert forall c {:trigger Text.Lower(c)} :: Text.Lower(c) == '.' ==> c == '.';
    }
    BareExtension(lower, extension);
    EndsWithExactly(file, ".3mf");
    ContainsAlike(file, base);
    hide Without, Text.LowerAll, Text.Contains, PrintRestart.Underscored, OccursAlike, EndsWith;
  }
}

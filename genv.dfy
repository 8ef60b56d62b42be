/**
 The package state of genv and the operations that change it: the typed
 setters and the getter, Save, Load and the Linux Init. The file system, the
 home directory lookup and the directory walk are outside the model: their
 outcomes are the methods' inputs, and Save reports what it did to the file.
 */
module Genv {
  import opened Options
  import opened Strings
  import opened Filepath
  import opened Strconv
  import opened Bufio
  import opened EnvMap
  import opened EnvFile

  /** The errors the package returns. */
  datatype Error =
    | TooManyDirs        // more than one optional directory argument
    | HomeUnavailable    // os.UserHomeDir failed during Init
    | InvalidDir         // errGenvInvalidDir: Init's directory is missing or not a directory
    | PathNotExist       // Load's directory does not exist
    | MkdirFailed        // errGenvMkValidDir
    | FilePathError      // errGenvFilePathError: creating the empty file failed
    | NotInitialized     // Save without a directory or a path
    | CreateFailed       // os.Create of the file failed
    | WriteFailed        // a line could not be written
    | WalkFailed         // the directory walk reported an error
    | OpenFailed         // os.Open of the file failed
    | RuntimePanic(reason: Panic)  // a run-time panic inside Load's line loop

  /** What os.Stat says of a directory argument. */
  datatype StatResult = Directory | NotDirectory | Missing | StatFailed

  /** What Save did to the file at the stored path. */
  datatype FileEffect = Untouched | Written(content: string)

  /** The application directory: `.NAME` inside `base`. */
  function EnvDir(base: string, name: string): (d: string)
    ensures d != ""
    ensures base != "" ==> d == base + "/." + name
  {
    Join(base, "." + name)
  }

  /** The stored file: `.NAME.env` inside `dir`; its path always contains NAME. */
  function EnvPath(dir: string, name: string): (p: string)
    ensures p != ""
    ensures Contains(p, name)
  {
    var file := "." + name + ".env";
    var p := Join(dir, file);
    assert p == (if dir == "" then "." else dir + "/.") + name + ".env";
    ContainsMiddle(if dir == "" then "." else dir + "/.", name, ".env");
    p
  }

  /**
   Load's directory discovery: the walk callback sets the directory to the
   parent of every visited path that contains `name`, so the last such path
   decides; with none, the directory keeps its prior value.
   */
  function Discover(walked: seq<string>, name: string, prior: string): (d: string)
    ensures prior != "" ==> d != ""
    decreases |walked|
  {
    if walked == [] then prior
    else
      var init, last := walked[..|walked| - 1], walked[|walked| - 1];
      if Contains(last, name) then Dir(last)
      else Discover(init, name, prior)
  }

  /** The parent of the last visited path containing `name` is what Discover yields. */
  lemma {:induction false} DiscoverAt(walked: seq<string>, name: string, prior: string, j: nat)
    requires j < |walked| && Contains(walked[j], name)
    requires forall k :: j < k < |walked| ==> !Contains(walked[k], name)
    ensures Discover(walked, name, prior) == Dir(walked[j])
    decreases |walked|
  {
    var n := |walked| - 1;
    DiscoverSnoc(walked, name, prior);
    if j < n {
      var init := walked[..n];
      assert !Contains(walked[n], name);
      assert init[j] == walked[j];
      assert forall k :: j < k < |init| ==> init[k] == walked[k];
      DiscoverAt(init, name, prior, j);
    }
  }

  /** With no visited path containing `name`, Discover keeps the prior directory. */
  lemma {:induction false} DiscoverNone(walked: seq<string>, name: string, prior: string)
    requires forall i :: 0 <= i < |walked| ==> !Contains(walked[i], name)
    ensures Discover(walked, name, prior) == prior
    decreases |walked|
  {
    if walked != [] {
      var n := |walked| - 1;
      var init := walked[..n];
      DiscoverSnoc(walked, name, prior);
      assert forall i :: 0 <= i < |init| ==> init[i] == walked[i];
      DiscoverNone(init, name, prior);
    }
  }

  /**
   What Discover yields: the prior directory when no visited path contains
   `name`, and otherwise the parent of the last visited path that does.
   */
  lemma DiscoverLastMatch(walked: seq<string>, name: string, prior: string)
    ensures (forall i :: 0 <= i < |walked| ==> !Contains(walked[i], name)) ==> Discover(walked, name, prior) == prior
    ensures forall j ::
      (0 <= j < |walked| && Contains(walked[j], name) &&
       forall k :: j < k < |walked| ==> !Contains(walked[k], name))
      ==> Discover(walked, name, prior) == Dir(walked[j])
  {
    if forall i :: 0 <= i < |walked| ==> !Contains(walked[i], name) {
      DiscoverNone(walked, name, prior);
    }
    forall j | 0 <= j < |walked| && Contains(walked[j], name) &&
               (forall k :: j < k < |walked| ==> !Contains(walked[k], name))
      ensures Discover(walked, name, prior) == Dir(walked[j])
    {
      DiscoverAt(walked, name, prior, j);
    }
  }

  /** The walk's last visited path decides first: its parent when it matches, else the earlier paths decide. */
  lemma DiscoverSnoc(walked: seq<string>, name: string, prior: string)
    requires walked != []
    ensures Discover(walked, name, prior) ==
      if Contains(walked[|walked| - 1], name) then Dir(walked[|walked| - 1])
      else Discover(walked[..|walked| - 1], name, prior)
  {
  }

  /**
   Load finds the directory Init made: when the walk visits the file Init
   created and no later path contains the name, the discovered directory is
   Init's and the path Load opens is the file Init created.
   */
  lemma DiscoverFindsInitFile(walked: seq<string>, base: string, name: string, prior: string, j: nat)
    requires '/' !in name
    requires j < |walked| && walked[j] == EnvPath(EnvDir(base, name), name)
    requires forall k :: j < k < |walked| ==> !Contains(walked[k], name)
    ensures Discover(walked, name, prior) == EnvDir(base, name)
    ensures EnvPath(Discover(walked, name, prior), name) == walked[j]
  {
    var file := "." + name + ".env";
    assert '/' !in file;
    DirJoin(EnvDir(base, name), file);
    DiscoverLastMatch(walked, name, prior);
  }

  /** Save's first loop: one `key=value\n` line per entry with a non-empty value, in the map's iteration order `order`. */
  method GatherLines(m: map<string, string>) returns (lines: seq<string>, ghost order: seq<string>)
    ensures Enumerates(order, NonEmpty(m).Keys)
    ensures forall i :: 0 <= i < |order| ==> order[i] in m
    ensures lines == Render(order, m)
    ensures |lines| == |NonEmpty(m)|
  {
    var remaining := m.Keys;
    lines, order := [], [];
    while remaining != {}
      invariant remaining <= m.Keys
      invariant Enumerates(order, NonEmpty(m).Keys - remaining)
      invariant forall i :: 0 <= i < |order| ==> order[i] in m
      invariant lines == Render(order, m)
      decreases |remaining|
    {
      var key :| key in remaining;
      if m[key] != "" {
        lines := lines + [Line(key, m[key])];
        order := order + [key];
      }
      remaining := remaining - {key};
    }
    SaveLinesOrderFree(m, order, order);
  }

  /** The characters of `line` that a write reporting `n` characters written has put in the file. */
  function PartialWrite(line: string, n: nat): (written: string)
    ensures written <= line
    ensures |written| == if n < |line| then n else |line|
  {
    line[..if n < |line| then n else |line|]
  }

  /**
   Save's second loop: the lines are written one after the other to the
   truncated file. When the write of line `writeFails` fails after writing
   `partial` characters of it, the file keeps the lines before it and those characters,
   and the error is reported. Either way the file holds a prefix of the full
   content.
   */
  method WriteLines(lines: seq<string>, writeFails: Option<nat>, partial: nat) returns (err: Option<Error>, content: string)
    ensures writeFails.Some? && writeFails.value < |lines| ==>
      && err == Some(WriteFailed)
      && content == Concat(lines[..writeFails.value]) + PartialWrite(lines[writeFails.value], partial)
    ensures !(writeFails.Some? && writeFails.value < |lines|) ==>
      err == None && content == Concat(lines)
    ensures content <= Concat(lines)
  {
    content := "";
    var i := 0;
    while i < |lines|
      invariant 0 <= i <= |lines|
      invariant writeFails.Some? ==> i <= writeFails.value
      invariant content == Concat(lines[..i])
    {
      if writeFails == Some(i) {
        var written := PartialWrite(lines[i], partial);
        ConcatPrefix(lines, i, |written|);
        return Some(WriteFailed), content + written;
      }
      ConcatSnoc(lines[..i], lines[i]);
      assert lines[..i + 1] == lines[..i] + [lines[i]];
      content := content + lines[i];
      i := i + 1;
    }
    assert lines[..i] == lines;
    return None, content;
  }

  /** One more line through the loop. */
  lemma MergeLinesStep(m: GoMap, texts: seq<string>, j: nat)
    requires j < |texts| && MergeLines(m, texts[..j]).Merged?
    ensures MergeLines(m, texts[..j + 1]) == MergeLine(MergeLines(m, texts[..j]).vars, texts[j])
  {
    assert texts[..j + 1][..j] == texts[..j];
  }

  /** MergeLine in the terms of the source's loop body: split, index, write. */
  lemma MergeLineSplits(m: GoMap, text: string)
    ensures var parts := Split(text, '=');
      MergeLine(m, text) ==
        if |parts| < 2 then Panicked(m, IndexOutOfRange)
        else if m.Nil? then Panicked(m, NilMapWrite)
        else Merged(m.Put(parts[0], parts[1]))
  {
  }

  class Store {
    var dir: string    // genvDir
    var path: string   // genvPath
    var vars: GoMap    // EnvVariables

    /** The package's zero state: no directory, no path, and the map from initEnvMap. */
    constructor ()
      ensures dir == "" && path == "" && vars == InitEnvMap()
    {
      dir, path, vars := "", "", InitEnvMap();
    }

    /** GetVar: the value stored for `key`, `""` when it is absent or the map is nil. */
    function GetVar(key: string): (value: string)
      reads this
      ensures key in vars.Entries() ==> value == vars.Entries()[key]
      ensures key !in vars.Entries() ==> value == ""
    {
      vars.Get(key)
    }

    /** addToEnvMap: `key` holds `value`; Go panics when the map is nil. */
    method AddToEnvMap(key: string, value: string)
      requires vars.Made?
      modifies this`vars
      ensures vars.Made? && vars.entries == old(vars.entries)[key := value]
    {
      vars := vars.Put(key, value);
    }

    /** CreateStringVar: the value is stored verbatim and every other key is as before. */
    method CreateStringVar(key: string, value: string)
      requires vars.Made?
      modifies this`vars
      ensures vars.Made? && vars.entries == old(vars.entries)[key := value]
      ensures GetVar(key) == value
      ensures forall k :: k != key ==> GetVar(k) == old(GetVar(k))
    {
      AddToEnvMap(key, value);
    }

    /**
     CreateIntVar: the decimal form of `value` is stored; it is never empty,
     so Save keeps it, and it parses back to `value`.
     */
    method CreateIntVar(key: string, value: GoInt)
      requires vars.Made?
      modifies this`vars
      ensures vars.Made? && vars.entries == old(vars.entries)[key := Itoa(value)]
      ensures GetVar(key) != "" && Atoi(GetVar(key)) == Some(value as int)
      ensures forall k :: k != key ==> GetVar(k) == old(GetVar(k))
    {
      AtoiItoa(value);
      AddToEnvMap(key, Itoa(value));
    }

    /**
     Save: with a directory and a path, and a made map, the file is created
     (truncated) and one `key=value\n` line per entry with a non-empty value
     is written, in the map's iteration order `order`. `writeFails` names the
     first line whose write fails, if any, and `partial` how many characters of it
     that write still put in the file; the lines before it stay in the file.
     The store itself is not changed.
     */
    method Save(createOk: bool, writeFails: Option<nat>, partial: nat) returns (err: Option<Error>, file: FileEffect, ghost order: seq<string>)
      ensures dir == "" || path == "" ==> err == Some(NotInitialized) && file == Untouched
      ensures dir != "" && path != "" && vars.Nil? ==> err == None && file == Untouched
      ensures dir != "" && path != "" && vars.Made? && !createOk ==> err == Some(CreateFailed) && file == Untouched
      ensures dir != "" && path != "" && vars.Made? && createOk ==>
        && Enumerates(order, NonEmpty(vars.entries).Keys)
        && (forall i :: 0 <= i < |order| ==> order[i] in vars.entries)
        && var lines := Render(order, vars.entries);
           if writeFails.Some? && writeFails.value < |lines| then
             && err == Some(WriteFailed)
             && file == Written(Concat(lines[..writeFails.value]) + PartialWrite(lines[writeFails.value], partial))
           else
             err == None && file == Written(Concat(lines))
    {
      order := [];
      if dir == "" || path == "" {
        return Some(NotInitialized), Untouched, order;
      }
      if vars.Nil? {
        return None, Untouched, order;
      }
      if !createOk {
        return Some(CreateFailed), Untouched, order;
      }
      var lines, content;
      lines, order := GatherLines(vars.entries);
      err, content := WriteLines(lines, writeFails, partial);
      file := Written(content);
    }

    /**
     Load: with at most one directory argument that exists, the walk's
     matches update the directory, the path becomes `.NAME.env` inside it,
     and every scanned line of the file is split at `=` and merged into the
     map, later lines overwriting earlier ones. A panic in the line loop
     keeps what was merged before it.
     */
    method Load(appName: string, dirs: seq<string>, stat: StatResult, walked: seq<string>,
                walkFailed: bool, openOk: bool, content: string) returns (err: Option<Error>)
      modifies this
      ensures |dirs| >= 2 ==>
        err == Some(TooManyDirs) && dir == old(dir) && path == old(path) && vars == old(vars)
      ensures |dirs| == 1 && stat == Missing ==>
        err == Some(PathNotExist) && dir == old(dir) && path == old(path) && vars == old(vars)
      ensures |dirs| == 0 || (|dirs| == 1 && stat != Missing) ==>
        && dir == Discover(walked, ToTitle(appName), old(dir))
        && (walkFailed ==> err == Some(WalkFailed) && path == old(path) && vars == old(vars))
        && (!walkFailed ==> path == EnvPath(dir, ToTitle(appName)))
        && (!walkFailed && !openOk ==> err == Some(OpenFailed) && vars == old(vars))
        && (!walkFailed && openOk ==>
             var r := MergeLines(old(vars), ScanLines(content));
             vars == r.vars && err == (if r.Merged? then None else Some(RuntimePanic(r.reason))))
    {
      var name := ToTitle(appName);
      if |dirs| >= 2 {
        return Some(TooManyDirs);
      }
      if |dirs| == 1 && stat == Missing {
        return Some(PathNotExist);
      }
      DiscoverDir(walked, name);
      if walkFailed {
        return Some(WalkFailed);
      }
      path := EnvPath(dir, name);
      if !openOk {
        return Some(OpenFailed);
      }
      var panic := MergeScanned(ScanLines(content));
      if panic.Some? {
        return Some(RuntimePanic(panic.value));
      }
      return None;
    }

    /** The walk callback applied to each visited path in turn: a path containing `name` sets the directory to its parent. */
    method DiscoverDir(walked: seq<string>, name: string)
      modifies this`dir
      ensures dir == Discover(walked, name, old(dir))
    {
      var i := 0;
      while i < |walked|
        invariant 0 <= i <= |walked|
        invariant dir == Discover(walked[..i], name, old(dir))
      {
        assert walked[..i + 1][..i] == walked[..i];
        DiscoverSnoc(walked[..i + 1], name, old(dir));
        if Contains(walked[i], name) {
          dir := Dir(walked[i]);
        }
        i := i + 1;
      }
      assert walked[..i] == walked;
    }

    /** The scanner loop: `EnvVariables[line[0]] = line[1]` for each line, until a panic. */
    method MergeScanned(lines: seq<string>) returns (panic: Option<Panic>)
      modifies this`vars
      ensures vars == MergeLines(old(vars), lines).vars
      ensures panic.None? <==> MergeLines(old(vars), lines).Merged?
      ensures panic.Some? ==> panic.value == MergeLines(old(vars), lines).reason
    {
      ghost var start := vars;
      var j := 0;
      while j < |lines|
        invariant 0 <= j <= |lines|
        invariant MergeLines(start, lines[..j]) == Merged(vars)
      {
        MergeLinesStep(start, lines, j);
        MergeLineSplits(vars, lines[j]);
        var parts := Split(lines[j], '=');
        if |parts| < 2 || vars.Nil? {
          MergeStopsAtPanic(start, lines, j + 1);
          return Some(if |parts| < 2 then IndexOutOfRange else NilMapWrite);
        }
        vars := vars.Put(parts[0], parts[1]);
        j := j + 1;
      }
      assert lines[..j] == lines;
      return None;
    }

    /**
     Init (Linux): the base is the home directory, or the one directory
     argument if it is a directory. The directory `.NAME` is set first and
     made; only then is the path `.NAME.env` inside it set and the empty file
     written. A failure after the first assignment leaves it in place. The
     map is never touched.
     */
    method Init(appName: string, dirs: seq<string>, home: Option<string>, stat: StatResult,
                mkdirOk: bool, writeOk: bool) returns (err: Option<Error>)
      modifies this`dir, this`path
      ensures vars == old(vars)
      ensures |dirs| >= 2 ==> err == Some(TooManyDirs) && dir == old(dir) && path == old(path)
      ensures |dirs| == 0 && home.None? ==> err == Some(HomeUnavailable) && dir == old(dir) && path == old(path)
      ensures |dirs| == 1 && stat != Directory ==> err == Some(InvalidDir) && dir == old(dir) && path == old(path)
      ensures (|dirs| == 0 && home.Some?) || (|dirs| == 1 && stat == Directory) ==>
        && dir == EnvDir(if |dirs| == 0 then home.value else dirs[0], ToTitle(appName))
        && (!mkdirOk ==> err == Some(MkdirFailed) && path == old(path))
        && (mkdirOk ==> path == EnvPath(dir, ToTitle(appName)))
        && (mkdirOk && !writeOk ==> err == Some(FilePathError))
        && (mkdirOk && writeOk ==> err == None)
      ensures err == None ==> dir != "" && path != ""
    {
      var name := ToTitle(appName);
      var base: string;
      if |dirs| == 0 {
        if home.None? {
          return Some(HomeUnavailable);
        }
        base := home.value;
      } else if |dirs| == 1 {
        if stat != Directory {
          return Some(InvalidDir);
        }
        base := dirs[0];
      } else {
        return Some(TooManyDirs);
      }
      dir := EnvDir(base, name);
      if !mkdirOk {
        return Some(MkdirFailed);
      }
      path := EnvPath(dir, name);
      if !writeOk {
        return Some(FilePathError);
      }
      return None;
    }
  }

  /** The two entries of the scenario below are plain and non-empty. */
  lemma DemoEntries()
    ensures PlainEntries(map["a" := "1", "b" := "2"])
    ensures NonEmpty(map["a" := "1", "b" := "2"]) == map["a" := "1", "b" := "2"]
  {
  }

  /** The application name of SaveScenario and RoundTripScenario, normalised as Init and Load do. */
  lemma DemoName()
    ensures ToTitle("demo") == "DEMO" && '/' !in "DEMO"
  {
  }

  /**
   A client of the specifications above, first half: initialise `demo` under
   a home directory, set two variables and save. Whatever order the map
   yields, the saved content scans and merges back into those two entries.
   */
  method SaveScenario() returns (path: string, content: string)
    ensures path == EnvPath(EnvDir("/home/u", "DEMO"), "DEMO")
    ensures MergeLines(InitEnvMap(), ScanLines(content)) == Merged(Made(map["a" := "1", "b" := "2"]))
  {
    DemoName();
    var s := new Store();
    var err := s.Init("demo", [], Some("/home/u"), StatFailed, true, true);
    path := s.path;
    s.CreateStringVar("a", "1");
    s.CreateStringVar("b", "2");
    ghost var m := s.vars.entries;
    assert m == map["a" := "1", "b" := "2"];
    var saveErr, file, order := s.Save(true, None, 0);
    content := file.content;
    DemoEntries();
    SaveLoadRoundTripFresh(m, order);
  }

  /**
   Second half: a fresh store loads `demo` by the default discovery, the walk
   visiting the home directory, the application directory and the saved file.
   The path found is the saved file and both values come back.
   */
  method RoundTripScenario() returns (a: string, b: string)
    ensures a == "1" && b == "2"
  {
    var path, content := SaveScenario();
    DemoName();
    var name := ToTitle("demo");
    var walked := ["/home/u", EnvDir("/home/u", name), path];
    DiscoverFindsInitFile(walked, "/home/u", name, "", 2);
    var t := new Store();
    var loadErr := t.Load("demo", [], StatFailed, walked, false, true, content);
    assert t.path == path;
    a := t.GetVar("a");
    b := t.GetVar("b");
  }

  /**
   A client of Init's specification: after a successful Init under the home
   directory, a second Init with another directory whose Mkdir fails has
   already moved the directory but not the path, so the store's path no
   longer lies in its directory and Save's guard still passes.
   */
  method StalePathScenario() returns (dir: string, path: string)
    ensures dir == EnvDir("/tmp", "APP")
    ensures path == EnvPath(EnvDir("/home/u", "APP"), "APP")
    ensures Dir(path) != dir
  {
    AppName();
    var s := new Store();
    var err := s.Init("app", [], Some("/home/u"), StatFailed, true, true);
    err := s.Init("app", ["/tmp"], None, Directory, false, true);
    assert err == Some(MkdirFailed);
    dir, path := s.dir, s.path;
    DirJoin(EnvDir("/home/u", "APP"), ".APP.env");
    assert |EnvDir("/home/u", "APP")| != |dir|;
  }

  /** The application name of StalePathScenario, normalised as Init does. */
  lemma AppName()
    ensures ToTitle("app") == "APP"
  {
  }

}

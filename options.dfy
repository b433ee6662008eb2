/**
 * The option globals of the `Options` namespace that the core reads and writes,
 * gathered as the fields of one object, and the operations that update them.
 */
module Options {
  import opened Common
  import OptionArgs
  import opened ModList

  /** The eighteen display options that `backupDisplay` copies and `switchDisplay` swaps. */
  datatype DisplayOptions = DisplayOptions(
    displayWidth: int,
    displayHeight: int,
    battlescapeScale: int,
    geoscapeScale: int,
    useOpenGL: bool,
    useScaleFilter: bool,
    useHQXFilter: bool,
    useOpenGLShader: string,
    useXBRZFilter: bool,
    rootWindowedMode: bool,
    windowedModePositionX: int,
    windowedModePositionY: int,
    fullscreen: bool,
    allowResize: bool,
    borderless: bool,
    useNearestScaler: bool,
    useLinearScaler: bool,
    useAnisotropicScaler: bool)

  /** The first candidate, in order, that is in `s`. */
  function FirstIn(cands: seq<string>, s: set<string>): (r: Option<string>)
    ensures r.None? <==> forall i :: 0 <= i < |cands| ==> cands[i] !in s
    ensures r.Some? ==> exists i :: 0 <= i < |cands| && cands[i] == r.value && r.value in s &&
                                    forall k :: 0 <= k < i ==> cands[k] !in s
  {
    if cands == [] then None
    else if cands[0] in s then Some(cands[0])
    else
      var r := FirstIn(cands[1..], s);
      assert r.Some? ==> exists i :: 1 <= i < |cands| && cands[i] == r.value && r.value in s &&
                                     forall k :: 0 <= k < i ==> cands[k] !in s by {
        if r.Some? {
          var i :| 0 <= i < |cands[1..]| && cands[1..][i] == r.value && r.value in s &&
                   forall k :: 0 <= k < i ==> cands[1..][k] !in s;
          assert cands[i + 1] == r.value;
          assert forall k :: 1 <= k < i + 1 ==> cands[k] == cands[1..][k - 1];
        }
      }
      r
  }

  /** The position of the last candidate that is in `s`, or -1. */
  function LastIndexIn(cands: seq<string>, s: set<string>): (j: int)
    ensures -1 <= j < |cands|
    ensures j >= 0 ==> cands[j] in s
    ensures forall k :: j < k < |cands| ==> cands[k] !in s
    decreases |cands|
  {
    if cands == [] then -1
    else if cands[|cands| - 1] in s then |cands| - 1
    else
      var n := |cands| - 1;
      var j := LastIndexIn(cands[..n], s);
      assert forall k :: j < k < n ==> cands[k] == cands[..n][k];
      j
  }

  /** The last candidate, in order, that is in `s`. */
  function LastIn(cands: seq<string>, s: set<string>): (r: Option<string>)
    ensures r.None? <==> forall i :: 0 <= i < |cands| ==> cands[i] !in s
    ensures r.Some? ==> exists i :: 0 <= i < |cands| && cands[i] == r.value && r.value in s &&
                                    forall k :: i < k < |cands| ==> cands[k] !in s
  {
    var j := LastIndexIn(cands, s);
    if j >= 0 then Some(cands[j]) else None
  }

  /**
   * The user folder `setFolders` settles on: a folder already set is kept; otherwise
   * the last candidate that exists, and failing that the first one that can be created.
   */
  function UserFolderChoice(userFolder: string, cands: seq<string>, existing: set<string>,
                            creatable: set<string>): (r: string)
    ensures userFolder != "" ==> r == userFolder
    ensures userFolder == "" && r != "" ==> r in cands && (r in existing || r in creatable)
    ensures userFolder == "" && LastIn(cands, existing).Some? && LastIn(cands, existing).value != "" ==>
              r == LastIn(cands, existing).value
    ensures userFolder == "" && "" !in cands ==> (r == "" <==> forall c :: c in cands ==> c !in existing && c !in creatable)
  {
    if userFolder != "" then userFolder
    else
      var e := LastIn(cands, existing);
      if e.Some? && e.value != "" then e.value
      else
        var c := FirstIn(cands, creatable);
        if c.Some? then c.value else ""
  }

  /** The namespace globals. */
  class Globals {
    var dataFolder: string
    var userFolder: string
    var configFolder: string
    var dataList: seq<string>
    var systemLocale: string
    var masterMod: string
    var commandLine: map<string, string>
    var loadLastSave: bool
    var loadLastSaveExpended: bool
    var reload: bool
    var mods: seq<ModEntry>
    var modInfos: seq<ModInfo>
    var display: DisplayOptions
    var newDisplay: DisplayOptions
    var language: string
    var baseXResolution: int
    var baseYResolution: int

    constructor (display: DisplayOptions)
      ensures mods == [] && modInfos == [] && commandLine == map[]
      ensures !loadLastSave && !loadLastSaveExpended && !reload
      ensures dataFolder == "" && userFolder == "" && configFolder == "" && masterMod == ""
      ensures this.display == display && newDisplay == display
    {
      dataFolder := "";
      userFolder := "";
      configFolder := "";
      dataList := [];
      systemLocale := "";
      masterMod := "";
      commandLine := map[];
      loadLastSave := false;
      loadLastSaveExpended := false;
      reload := false;
      mods := [];
      modInfos := [];
      this.display := display;
      newDisplay := display;
      language := "";
      baseXResolution := 320;
      baseYResolution := 200;
    }

    /** The globals `loadArgs` may write, as one value. */
    function Args(): OptionArgs.ArgSettings
      reads this
    {
      OptionArgs.ArgSettings(dataFolder, userFolder, configFolder, systemLocale, masterMod, commandLine, loadLastSave)
    }

    /** `loadArgs`: scans the arguments after the program name and applies each option. */
    method LoadArgs(argv: seq<string>)
      modifies this`dataFolder, this`userFolder, this`configFolder, this`systemLocale,
               this`masterMod, this`commandLine, this`loadLastSave
      ensures Args() == OptionArgs.LoadArgs(old(Args()), argv)
    {
      systemLocale := "";
      ghost var final := OptionArgs.ApplyAll(Args(), OptionArgs.Tokens(argv, 1));
      var i := 1;
      while i < |argv|
        invariant 1 <= i
        invariant OptionArgs.ApplyAll(Args(), OptionArgs.Tokens(argv, i)) == final
        decreases |argv| - i
      {
        var arg := argv[i];
        ghost var before := Args();
        OptionArgs.TokensAt(argv, i);
        if OptionArgs.IsOption(arg) {
          var name := OptionArgs.ArgName(arg);
          if OptionArgs.IsContinue(name) {
            OptionArgs.ApplyAllCons(before, OptionArgs.Continue, OptionArgs.Tokens(argv, i + 1));
            loadLastSave := true;
            i := i + 1;
            continue;
          }
          if i + 1 < |argv| {
            OptionArgs.ApplyAllCons(before, OptionArgs.Value(name, argv[i + 1]), OptionArgs.Tokens(argv, i + 2));
            i := i + 1;
            ApplyValue(name, argv[i]);
          } else {
            OptionArgs.ApplyAllCons(before, OptionArgs.Dangling(name), OptionArgs.Tokens(argv, i + 1));
          }
        }
        i := i + 1;
      }
    }

    /** One option of `loadArgs` with its value. */
    method ApplyValue(name: string, value: string)
      modifies this`dataFolder, this`userFolder, this`configFolder, this`systemLocale,
               this`masterMod, this`commandLine
      ensures Args() == OptionArgs.Apply(old(Args()), OptionArgs.Value(name, value))
    {
      if name == "data" {
        dataFolder := OptionArgs.NormalizeFolder(value);
      } else if name == "user" {
        userFolder := OptionArgs.NormalizeFolder(value);
      } else if name == "cfg" || name == "config" {
        configFolder := OptionArgs.NormalizeFolder(value);
      } else if name == "locale" {
        systemLocale := systemLocale + value;
      } else if name == "master" {
        masterMod := value;
      } else {
        commandLine := commandLine[name := value];
      }
    }

    /** `_setDefaultMods`: appends the default masters for the installed games. */
    method SetDefaultMods(haveUfo: bool, haveTftd: bool)
      modifies this`mods
      ensures mods == old(mods) + DefaultMods(haveUfo, haveTftd)
    {
      if haveUfo {
        mods := mods + [ModEntry("xcom1", true)];
      }
      if haveTftd {
        mods := mods + [ModEntry("xcom2", !haveUfo)];
      }
    }

    /**
     * The list logic of `refreshMods`, given the scanned mod infos; `ok` is false
     * where the source throws "No X-COM installations found".
     */
    method RefreshMods(infos: seq<ModInfo>) returns (ok: bool)
      modifies this`mods, this`masterMod, this`modInfos
      ensures modInfos == infos
      ensures mods == Refresh(old(mods), old(masterMod), reload, infos).mods
      ensures masterMod == Refresh(old(mods), old(masterMod), reload, infos).masterMod
      ensures ok == Refresh(old(mods), old(masterMod), reload, infos).ok
    {
      if reload {
        masterMod := "";
      }
      modInfos := infos;
      var corrupted := PruneMods(infos);
      ReinsertMasters(corrupted);
      assert mods == Start(old(mods), infos);
      var activeMaster, inactiveMaster := ScanMods(infos);
      if activeMaster == "" {
        if inactiveMaster == "" {
          return false;
        }
        var j := Find(mods, ModEntry(inactiveMaster, false));
        if j >= 0 {
          mods := mods[j := ModEntry(inactiveMaster, true)];
        }
        masterMod := inactiveMaster;
      } else {
        masterMod := activeMaster;
      }
      return true;
    }

    /** First loop of `refreshMods`: erases missing mods and misplaced masters, collecting the latter. */
    method PruneMods(infos: seq<ModInfo>) returns (corrupted: seq<ModEntry>)
      modifies this`mods
      ensures SortedById(corrupted)
      ensures PruneFrom(old(mods), infos, false, [], []) == Pruned(mods, corrupted)
    {
      var nonMasterFound := false;
      corrupted := [];
      var i := 0;
      while i < |mods|
        invariant 0 <= i <= |mods|
        invariant SortedById(corrupted)
        invariant PruneFrom(mods[i..], infos, nonMasterFound, mods[..i], corrupted) ==
                  PruneFrom(old(mods), infos, false, [], [])
        decreases |mods| - i
      {
        var e := mods[i];
        var found := LookupInfo(infos, e.id);
        assert mods[i..] == [e] + mods[i + 1..];
        ghost var m := mods;
        if found.None? {
          mods := mods[..i] + mods[i + 1..];
          assert mods[..i] == m[..i] && mods[i..] == m[i + 1..];
          continue;
        }
        if found.value {
          if nonMasterFound {
            PutFacts(corrupted, e);
            corrupted := Put(corrupted, e);
            mods := mods[..i] + mods[i + 1..];
            assert mods[..i] == m[..i] && mods[i..] == m[i + 1..];
            continue;
          }
        } else {
          nonMasterFound := true;
        }
        assert mods[..i + 1] == mods[..i] + [e];
        i := i + 1;
      }
      assert mods[i..] == [] && mods[..i] == mods;
    }

    /** Second loop of `refreshMods`: inserts each misplaced master at the front, in ascending key order. */
    method ReinsertMasters(corrupted: seq<ModEntry>)
      modifies this`mods
      ensures mods == Reverse(corrupted) + old(mods)
    {
      var c := 0;
      while c < |corrupted|
        invariant 0 <= c <= |corrupted|
        invariant mods == Reverse(corrupted[..c]) + old(mods)
      {
        ReversePrefixStep(corrupted, c);
        mods := [corrupted[c]] + mods;
        c := c + 1;
      }
      assert corrupted[..c] == corrupted;
    }

    /** Third loop of `refreshMods`: adds new mods and keeps a single master active. */
    method ScanMods(infos: seq<ModInfo>) returns (activeMaster: string, inactiveMaster: string)
      modifies this`mods
      ensures ScanState(mods, activeMaster, inactiveMaster) == ScanFrom(infos, 0, masterMod, ScanState(old(mods), "", ""))
    {
      activeMaster := "";
      inactiveMaster := "";
      var k := 0;
      while k < |infos|
        invariant 0 <= k <= |infos|
        invariant ScanFrom(infos, k, masterMod, ScanState(mods, activeMaster, inactiveMaster)) ==
                  ScanFrom(infos, 0, masterMod, ScanState(old(mods), "", ""))
      {
        activeMaster, inactiveMaster := ScanOne(infos[k], activeMaster, inactiveMaster);
        k := k + 1;
      }
    }

    /** One pass of the third loop of `refreshMods`, for the available mod `info`. */
    method ScanOne(info: ModInfo, activeMaster: string, inactiveMaster: string) returns (am: string, im: string)
      modifies this`mods
      ensures ScanState(mods, am, im) == ScanStep(ScanState(old(mods), activeMaster, inactiveMaster), info, masterMod)
    {
      am, im := activeMaster, inactiveMaster;
      var j := FindById(mods, info.id);
      if j >= 0 {
        if info.isMaster {
          var flag := mods[j].active;
          if masterMod != "" {
            flag := masterMod == info.id;
          }
          if flag {
            if am != "" {
              flag := false;
            } else {
              am := info.id;
            }
          } else if im == "" || info.id == "xcom1" || info.id == "xcom2" {
            im := info.id;
          }
          mods := mods[j := ModEntry(info.id, flag)];
        }
      } else if info.isMaster {
        mods := [ModEntry(info.id, false)] + mods;
        if im == "" {
          im := info.id;
        }
      } else {
        mods := mods + [ModEntry(info.id, false)];
      }
    }

    /** `getActiveMods`: `None` where `_modInfos.at` throws. */
    method GetActiveMods(canActivate: set<string>) returns (r: Option<seq<string>>)
      ensures r == ActiveMods(mods, modInfos, canActivate)
    {
      var active: seq<string> := [];
      var i := 0;
      while i < |mods|
        invariant 0 <= i <= |mods|
        invariant ActiveMods(mods[..i], modInfos, canActivate) == Some(active)
      {
        var e := mods[i];
        assert mods[..i + 1][..i] == mods[..i];
        if e.active {
          if !Known(modInfos, e.id) {
            assert e in mods[..i + 1];
            return None;
          }
          if e.id in canActivate {
            active := active + [e.id];
          }
        }
        i := i + 1;
      }
      assert mods[..i] == mods;
      return Some(active);
    }

    /**
     * `setFolders`, with the platform's candidate folders, the folders that exist
     * and those that can be created given as inputs; returns the mods folder it asks
     * to create, if any.
     */
    method SetFolders(found: seq<string>, userCands: seq<string>, platformConfig: string,
                      existing: set<string>, creatable: set<string>) returns (modsFolder: Option<string>)
      modifies this`dataList, this`userFolder, this`configFolder
      ensures dataList == (if dataFolder != "" then [dataFolder] else []) + found
      ensures userFolder == UserFolderChoice(old(userFolder), userCands, existing, creatable)
      ensures configFolder ==
        if old(configFolder) != "" then old(configFolder)
        else if old(userFolder) == "" && platformConfig != "" then platformConfig
        else userFolder
      ensures modsFolder == if userFolder != "" then Some(userFolder + "mods") else None
    {
      dataList := found;
      if dataFolder != "" {
        dataList := [dataFolder] + dataList;
      }
      if userFolder == "" {
        if configFolder == "" {
          configFolder := platformConfig;
        }
        // look for an existing user folder, from the last candidate back
        var e := LastExisting(userCands, existing);
        if e.Some? {
          userFolder := e.value;
        }
        // otherwise set one up
        if userFolder == "" {
          var c := FirstCreated(userCands, creatable);
          if c.Some? {
            userFolder := c.value;
          }
        }
      }
      modsFolder := if userFolder != "" then Some(userFolder + "mods") else None;
      if configFolder == "" {
        configFolder := userFolder;
      }
    }

    /** `backupDisplay`: the pending display options become a copy of the current ones. */
    method BackupDisplay()
      modifies this`newDisplay
      ensures newDisplay == display
    {
      newDisplay := display;
    }

    /** `switchDisplay`: exchanges the current and the pending display options. */
    method SwitchDisplay()
      modifies this`display, this`newDisplay
      ensures display == old(newDisplay) && newDisplay == old(display)
      ensures old(display == newDisplay) ==> display == old(display) && newDisplay == old(newDisplay)
    {
      display, newDisplay := newDisplay, display;
    }

    /** `getLoadLastSave`: the continue request holds until it is spent. */
    function GetLoadLastSave(): (b: bool)
      reads this`loadLastSave, this`loadLastSaveExpended
      ensures b ==> loadLastSave && !loadLastSaveExpended
      ensures loadLastSave && !loadLastSaveExpended ==> b
    {
      loadLastSave && !loadLastSaveExpended
    }

    /** `expendLoadLastSave`: after it, the continue request is spent for good. */
    method ExpendLoadLastSave()
      modifies this`loadLastSaveExpended
      ensures loadLastSaveExpended && !GetLoadLastSave()
    {
      loadLastSaveExpended := true;
    }

    /** `getMasterUserFolder`: the master's own folder inside the user folder. */
    function MasterUserFolder(): (r: string)
      reads this`userFolder, this`masterMod
      ensures |r| == |userFolder| + |masterMod| + 1
      ensures r[..|userFolder|] == userFolder
      ensures r[|userFolder|..|r| - 1] == masterMod
      ensures r[|r| - 1] == '/'
    {
      userFolder + masterMod + "/"
    }
  }

  /** The search loop for an entry with the given id. */
  method FindById(mods: seq<ModEntry>, id: string) returns (j: int)
    ensures j == FindId(mods, id)
  {
    j := 0;
    while j < |mods| && mods[j].id != id
      invariant 0 <= j <= |mods|
      invariant forall k :: 0 <= k < j ==> mods[k].id != id
    {
      j := j + 1;
    }
    if j == |mods| {
      j := -1;
    }
  }

  /** `std::find` on the list; -1 stands for the end iterator. */
  method Find(mods: seq<ModEntry>, x: ModEntry) returns (j: int)
    ensures j == IndexOf(mods, x)
  {
    j := 0;
    while j < |mods| && mods[j] != x
      invariant 0 <= j <= |mods|
      invariant x !in mods[..j]
    {
      assert mods[..j + 1] == mods[..j] + [mods[j]];
      j := j + 1;
    }
    if j == |mods| {
      assert mods[..j] == mods;
      j := -1;
    }
  }

  /** The backward search of `setFolders` for a user folder that exists. */
  method LastExisting(cands: seq<string>, existing: set<string>) returns (r: Option<string>)
    ensures r == LastIn(cands, existing)
  {
    var i := |cands|;
    while i > 0
      invariant 0 <= i <= |cands|
      invariant LastIn(cands[..i], existing) == LastIn(cands, existing)
    {
      assert cands[..i][..i - 1] == cands[..i - 1];
      if cands[i - 1] in existing {
        return Some(cands[i - 1]);
      }
      i := i - 1;
    }
    return None;
  }

  /** The forward search of `setFolders` for a user folder that can be created. */
  method FirstCreated(cands: seq<string>, creatable: set<string>) returns (r: Option<string>)
    ensures r == FirstIn(cands, creatable)
  {
    var j := 0;
    while j < |cands|
      invariant 0 <= j <= |cands|
      invariant FirstIn(cands[j..], creatable) == FirstIn(cands, creatable)
    {
      assert cands[j..][1..] == cands[j + 1..];
      if cands[j] in creatable {
        return Some(cands[j]);
      }
      j := j + 1;
    }
    return None;
  }
}

# OpenXcom engine core, modelled in Dafny

This project models the deterministic core of the OpenXcom engine and proves
properties of it. The model covers:

- **Options** (`src/Engine/Options.cpp`):
  - the command-line parser `loadArgs`;
  - the mod-list maintenance of `refreshMods`, which prunes missing mods, re-inserts masters found out of place, adds newly found mods and keeps exactly one master active;
  - the default mod list for the installed original games;
  - the active-mod query;
  - the data, user and config folder choice of `setFolders`;
  - the display-option backup and swap;
  - the one-shot "continue last save" flag;
  - the master's user folder.
- **Game** (`src/Engine/Game.cpp`):
  - the state stack with deferred deletion and lazy initialisation;
  - the range of states drawn each frame;
  - the run-state machine driven by window events and the pause-mode tables;
  - the idle-time computation of the main loop;
  - the language choice;
  - the audio chunk-size clamp.
- **Screen** (`src/Engine/Screen.cpp`):
  - the 32-bit scaler test;
  - the base resolution of `updateScale`;
  - the deferred palette of `setPalette`;
  - the debug slow-motion key;
  - the screenshot file name;
  - the black bands and output rectangle of `resetDisplay`;
  - the centring offsets `getDX`/`getDY`.
- **Renderer** (`src/Engine/Renderer.cpp`): the global upscaler registry.
- **Geoscape targets** (`src/Savegame/MissionSite.cpp`, `src/Savegame/AlienBase.cpp`):
  - constructors, setters and markers;
  - `save`/`load` over a save node, abstracted as a map from keys to scalars.
- **Pathfinding node** (`src/Battlescape/PathfindingNode.h`): the checked and open-set flags and the `MinNodeCosts` order.

Code that changes state in place is modelled as classes: `Options.Globals` holds the namespace globals. The other classes are `Game.Game`, `Screen.Screen`, `Screen.GameTimer`, `Renderer.UpscalerRegistry`, `MissionSite.MissionSite`, `AlienBase.AlienBase` and `PathfindingNode.PathfindingNode`. Their methods have `modifies` frames, and their loops carry invariants. The methods with loops or several steps are proved against a specification function, and the source's promises are lemmas about those functions. The one-step setters state their new state directly; so do `Game.Game.Quit`, `PathfindingNode.PathfindingNode.SetChecked` and `Options.Globals.ExpendLoadLastSave`.

Modules and files:

| file | module | role |
|---|---|---|
| `common.dfy` | `Common` | shared helpers: `Option`, C integer ranges, `tolower`, truncating division, `Reverse`, `IndexOf` |
| `option_args.dfy` | `OptionArgs` | specification of `loadArgs` |
| `mod_list.dfy` | `ModList` | specification of `refreshMods`, `_setDefaultMods` and `getActiveMods` |
| `options.dfy` | `Options` | the globals and the imperative operations |
| `game.dfy` | `Game` | the game object |
| `decimal.dfy` | `Decimal` | zero-padded decimal numbers, for the screenshot name |
| `screen.dfy` | `Screen` | the screen |
| `renderer.dfy` | `Renderer` | the upscaler registry |
| `save_node.dfy` | `SaveNode` | the save node |
| `mission_site.dfy` | `MissionSite` | mission sites |
| `alien_base.dfy` | `AlienBase` | alien bases |
| `pathfinding_node.dfy` | `PathfindingNode` | the pathfinding node |

Modelling choices:

- The order of `std::map<std::string, ModInfo>` is written out as the lexicographic order `ModList.Less`. The mod infos are a sequence sorted by it.
- C++ `int` division truncates toward zero, so it is modelled with `Common.TruncDiv`.
- A `Uint32` tick count is a bounded subtype.
- Filesystem queries become parameters: which folders exist or can be created, which language files and screenshot files exist.
- Values the source computes in floating point also become parameters.

## Model

| member | source | states |
|---|---|---|
| OptionArgs.ArgName | src/Engine/Options.cpp:518-525 | the option name is the argument without one or two leading dashes, lower-cased, and non-empty |
| OptionArgs.DoubleDashSameName | src/Engine/Options.cpp:521-525 | `--name` and `-name` are both options and give the same lower-cased name |
| OptionArgs.NormalizeFolder | src/Engine/Options.cpp:535-555 | a folder value longer than one character ends with '/' afterwards; a shorter one is unchanged; the original is a prefix |
| OptionArgs.NormalizeFolderIdempotent | src/Engine/Options.cpp:538-540 | normalising a folder twice is the same as normalising it once |
| OptionArgs.ApplyAllLocale | src/Engine/Options.cpp:556-560 | the locale ends up as its old value followed by every `-locale` value, in order |
| OptionArgs.ApplyAllContinue | src/Engine/Options.cpp:526-530 | the continue flag is set iff it was set or some `-cont`/`-continue` occurs; nothing clears it |
| OptionArgs.ApplyAllDataFolder | src/Engine/Options.cpp:535-541 | the data folder comes from the last `-data` option, normalised; unchanged if none |
| OptionArgs.ApplyAllUserFolder | src/Engine/Options.cpp:542-548 | the user folder comes from the last `-user` option, normalised; unchanged if none |
| OptionArgs.ApplyAllConfigFolder | src/Engine/Options.cpp:549-555 | the config folder comes from the last `-cfg` or `-config` option, normalised; unchanged if none |
| OptionArgs.ApplyAllMaster | src/Engine/Options.cpp:561-564 | the master mod comes from the last `-master` option; unchanged if none |
| OptionArgs.ApplyAllCommandLine | src/Engine/Options.cpp:565-569 | a non-reserved option's last value is stored under its name; reserved names and absent options leave the map as it was |
| OptionArgs.TokensFromOptions | src/Engine/Options.cpp:515-534 | every token comes from an option argument after `argv[0]`; a value is the argument right after its option, whatever it looks like |
| OptionArgs.NoOptionsNoTokens | src/Engine/Options.cpp:518 | arguments that are not options produce nothing |
| OptionArgs.ValueMayStartWithDash | src/Engine/Options.cpp:531-533 | `-user -cont` stores "-cont" as the user folder instead of setting the continue flag |
| Options.Globals.LoadArgs | src/Engine/Options.cpp:511-577 | the loop leaves the globals as the specification `OptionArgs.LoadArgs` gives: locale reset, then every token applied in order |
| Options.Globals.ApplyValue | src/Engine/Options.cpp:535-569 | one option with its value changes the globals as `OptionArgs.Apply` specifies |
| ModList.LessIrreflexive | src/Engine/Options.cpp:775 | the map order on mod ids is irreflexive |
| ModList.LessTransitive | src/Engine/Options.cpp:775 | the map order on mod ids is transitive |
| ModList.LessTotal | src/Engine/Options.cpp:775 | any two different ids are ordered one way or the other |
| ModList.LessAsymmetric | src/Engine/Options.cpp:775 | two ids are never ordered both ways |
| ModList.MapOrderDistinct | src/Engine/Options.cpp:731 | a map's ids, listed in map order, are distinct |
| ModList.LookupInfo | src/Engine/Options.cpp:738-739 | looking an id up in the mod infos finds its master flag exactly when the id is available |
| ModList.FindId | src/Engine/Options.cpp:778-780 | the first list position holding an id, or -1 exactly when no entry has it |
| ModList.PutFacts | src/Engine/Options.cpp:752 | storing into the sorted `corruptedMasters` map keeps it sorted and distinct, and it then holds the new key with its value |
| ModList.PutSorted | src/Engine/Options.cpp:752 | storing into the `corruptedMasters` map keeps its keys in strictly increasing order |
| ModList.PutMembers | src/Engine/Options.cpp:752 | after storing, the map holds the new entry, keeps every entry under another key, and has nothing else |
| ModList.PruneShape | src/Engine/Options.cpp:734-763 | after the pruning loop no kept non-master precedes a kept master, and every corrupted master was listed after a non-master |
| ModList.PruneOrigin | src/Engine/Options.cpp:736-763 | every kept or corrupted entry was in the list, available, and missing mods are gone |
| ModList.PruneDistinct | src/Engine/Options.cpp:736-763 | with distinct ids in the list, the kept and corrupted entries have distinct, disjoint ids |
| ModList.StartShape | src/Engine/Options.cpp:764-769 | after the re-insertion the list is masters first |
| ModList.StartOrigin | src/Engine/Options.cpp:764-769 | after the re-insertion the list holds exactly the old entries whose mod is available |
| ModList.StartDistinct | src/Engine/Options.cpp:764-769 | after the re-insertion the ids in the list are distinct |
| ModList.ScanInvariant | src/Engine/Options.cpp:775-837 | the scan keeps the list masters first and distinct; each processed mod is listed; `activeMaster` names the one active master; `inactiveMaster` names an inactive listed master whenever one was seen and none is active |
| ModList.ScanResult | src/Engine/Options.cpp:733-837 | after the scan every available mod is listed once, only available mods are listed, and the master facts of the invariant hold |
| ModList.FallbackFound | src/Engine/Options.cpp:849 | the `std::find` for the fallback master never returns the end iterator |
| ModList.RefreshListsAvailable | src/Engine/Options.cpp:703-856 | afterwards the list holds exactly the available mods, each once, masters first |
| ModList.RefreshFailsIffNoMaster | src/Engine/Options.cpp:839-845 | the exception is thrown iff no available mod is a master; `_masterMod` is then only the reload reset |
| ModList.RefreshSingleMaster | src/Engine/Options.cpp:783-856 | on success `_masterMod` is a master, it is listed active, and it is the only active master |
| ModList.RefreshNewEntries | src/Engine/Options.cpp:820-836 | a mod that was not listed enters inactive unless it becomes the fallback master; non-master entries keep their flag |
| ModList.RefreshHonoursRequest | src/Engine/Options.cpp:785-788 | a requested master that is listed and available is the one left active, and the refresh succeeds |
| Options.Globals.RefreshMods | src/Engine/Options.cpp:703-856 | the list, `_masterMod` and the success flag are those of the specification `ModList.Refresh` |
| Options.Globals.PruneMods | src/Engine/Options.cpp:733-763 | the erase loop leaves the list and the corrupted masters as the specification of the pruning pass gives |
| Options.Globals.ReinsertMasters | src/Engine/Options.cpp:764-769 | the corrupted masters are inserted at the front, each before the previous one |
| Options.Globals.ScanMods | src/Engine/Options.cpp:771-837 | the nested scan loops leave the list and both master names as the specification of the scan gives |
| Options.Globals.ScanOne | src/Engine/Options.cpp:776-834 | one available mod: the list and the two master names change exactly as one step of the scan specification says |
| Options.FindById | src/Engine/Options.cpp:778-780 | the search loop returns the first position with the id, or -1 |
| Options.Find | src/Engine/Options.cpp:849 | the `std::find` loop returns the first position of the entry, or -1 |
| ModList.DefaultMods | src/Engine/Options.cpp:473-486 | xcom1 is added, active, iff UFO is installed; xcom2 is added iff TFTD is installed, active only without UFO; xcom1 comes first |
| ModList.DefaultModsOneActive | src/Engine/Options.cpp:473-486 | at most one default master is active, and one is iff some game is installed |
| Options.Globals.SetDefaultMods | src/Engine/Options.cpp:473-486 | the default entries are appended to the list |
| ModList.ActiveMods | src/Engine/Options.cpp:1218-1234 | an id is returned iff an active entry has it and it can be activated; the result fails iff an active entry's mod is not available |
| ModList.ActiveModsInOrder | src/Engine/Options.cpp:1218-1234 | the ids come out in list order, one per selected entry: they are the ids of the active, activatable entries at strictly increasing positions, and every such entry is one of them |
| Options.Globals.GetActiveMods | src/Engine/Options.cpp:1218-1234 | the loop returns what `ModList.ActiveMods` specifies |
| Options.FirstIn | src/Engine/Options.cpp:954-961 | the first candidate in the set, or none exactly when no candidate is |
| Options.LastIn | src/Engine/Options.cpp:941-948 | the last candidate in the set, or none exactly when no candidate is |
| Options.UserFolderChoice | src/Engine/Options.cpp:932-963 | a preset user folder is kept; otherwise the last existing candidate wins; if none exists the first creatable one wins; with no empty candidate the result is empty iff no candidate exists or can be created |
| Options.LastExisting | src/Engine/Options.cpp:941-948 | the reverse search loop returns `Options.LastIn` |
| Options.FirstCreated | src/Engine/Options.cpp:954-961 | the forward creation loop returns `Options.FirstIn` |
| Options.Globals.SetFolders | src/Engine/Options.cpp:924-974 | the data list is the preset data folder followed by the found ones; the user folder is `UserFolderChoice`; the config folder falls back to the platform's and then to the user folder; the mods folder is requested iff a user folder is set |
| Options.Globals.BackupDisplay | src/Engine/Options.cpp:1239-1259 | the pending display options become a copy of the current ones |
| Options.Globals.SwitchDisplay | src/Engine/Options.cpp:1265-1285 | current and pending display options are exchanged; equal ones stay as they are |
| Options.Globals.constructor | src/Engine/Options.cpp:45-56 | the globals start with no mods, no mod infos, no command-line options, empty folders and master, and both continue flags cleared; the display options and their pending copy are the ones given |
| Options.Globals.GetLoadLastSave | src/Engine/Options.cpp:909-912 | the continue request holds iff it was made and has not been spent |
| Options.Globals.ExpendLoadLastSave | src/Engine/Options.cpp:909-917 | after it, the continue request no longer holds |
| Options.Globals.MasterUserFolder | src/Engine/Options.cpp:1198-1201 | the user folder, then the master mod's id, then '/' |
| Game.Game.constructor | src/Engine/Game.cpp:54 | a new game has an empty state stack and deletion queue, is not quitting and has no state to initialise |
| Game.Game.IsState | src/Engine/Game.cpp:816-818 | a state is current iff the stack is non-empty and it is on top |
| Game.Game.PushState | src/Engine/Game.cpp:697-701 | the state goes on top of the stack and will be initialised next cycle |
| Game.Game.PopState | src/Engine/Game.cpp:709-714 | the top state moves to the end of the deletion queue |
| Game.Game.SetState | src/Engine/Game.cpp:682-689 | all states are queued for deletion top first, and the new state is alone on the stack |
| Game.Game.CleanUp | src/Engine/Game.cpp:181-185 | the deletion queue is emptied, newest first |
| Game.Game.InitActive | src/Engine/Game.cpp:188-195 | the top state is initialised once after each change of the stack |
| Game.Game.BlitStart | src/Engine/Game.cpp:545-555 | drawing starts at the highest full-screen state, or the bottom; no state above the start is full-screen |
| Game.Game.Quit | src/Engine/Game.cpp:594-603 | the main loop is told to end |
| Game.NextRunState | src/Engine/Game.cpp:423-461 | focus gained, shown, exposed and restored resume; focus loss follows the keyboard-focus table; minimising and hiding follow the state table; mouse input resumes unless it is emulated from a touch or the mouse is disabled |
| Game.FocusLossMilderThanMinimise | src/Engine/Game.cpp:152-154 | in every pause mode, losing focus stops the game no harder than minimising |
| Game.CycleDelay | src/Engine/Game.cpp:575-584 | a running game sleeps the idle time; a slowed or paused one sleeps 100 ms |
| Game.IdleTime | src/Engine/Game.cpp:562-573 | the idle time is at most 100 ms, zero without a frame cap or under OpenGL vsync, never overshoots the frame deadline, and reaches it unless capped |
| Game.IdleTimeAfterWrap | src/Engine/Game.cpp:567-568 | a tick counter that wrapped during the frame counts as no time elapsed |
| Game.LanguageBase | src/Engine/Game.cpp:846 | the language part is the locale's prefix before its first '-' |
| Game.LanguageChoice | src/Engine/Game.cpp:834-882 | a language option is used iff its file exists; without one the full locale, then its language part, then en-US is used |
| Game.LanguageChoiceStable | src/Engine/Game.cpp:834-886 | storing the choice as the option gives the same choice on the next start |
| Game.LoadLanguages | src/Engine/Game.cpp:834-886 | en-US is loaded first and the choice over it if different; the language option becomes the choice |
| Game.AudioFormatFor | src/Engine/Game.cpp:893-895 | 8-bit depth selects signed 8-bit samples, anything else the mixer default |
| Game.SampleRateWarning | src/Engine/Game.cpp:897-901 | the warning is given iff the rate is not a whole multiple of 11025 Hz |
| Game.AudioChunkSize | src/Engine/Game.cpp:902-903 | the chunk size becomes the larger of the configured value and 512 per whole 11025 Hz of the rate |
| Decimal.DecimalString | src/Engine/Screen.cpp:170 | the decimal digits of a number, without leading zeros |
| Decimal.ParseDecimalString | src/Engine/Screen.cpp:170 | reading the digits back gives the number |
| Decimal.Pad3 | src/Engine/Screen.cpp:170 | `setfill('0') << setw(3)`: at least three digits, exactly three below 1000 |
| Decimal.ParsePad3 | src/Engine/Screen.cpp:170 | reading the padded digits back gives the number |
| Decimal.Pad3Injective | src/Engine/Screen.cpp:170 | different numbers give different padded strings |
| Screen.MaxScale | src/Engine/Screen.cpp:636-645 | HQX allows scales up to 4; otherwise xBRZ allows up to 6; with neither filter there is no scale |
| Screen.Use32BitScaler | src/Engine/Screen.cpp:630-655 | true iff the display is the base resolution times some i from 2 to the filter's maximum |
| Screen.ScaledResolution | src/Engine/Screen.cpp:704-747 | 1.5x is 480x300, 2x is 640x400, original and unknown modes are 320x200, and no mode goes below 320x200 |
| Screen.UpdateScale | src/Engine/Screen.cpp:695-754 | returns the scaled size and stores it as the base resolution iff asked to |
| Screen.NextSlowSpeed | src/Engine/Screen.cpp:149-154 | F8 cycles the slow-motion factor 1→5→15→1; any other value goes to 1 |
| Screen.SlowSpeedCycle | src/Engine/Screen.cpp:149-154 | three presses bring any factor of the cycle back |
| Screen.ScreenshotFile | src/Engine/Screen.cpp:170 | the name starts with the master's user folder and ends in ".png" |
| Screen.ScreenshotFileInjective | src/Engine/Screen.cpp:170 | different counters name different files |
| Screen.ScreenshotName | src/Engine/Screen.cpp:165-174 | the counter loop returns the first counter whose file does not exist; every earlier one exists |
| Screen.Screen.Handle | src/Engine/Screen.cpp:143-179 | F8 in debug mode advances the slow factor; Alt+Enter flips full screen; otherwise the screenshot key yields the first free screenshot name |
| Screen.Screen.constructor | src/Engine/Screen.cpp:110-117 | a new screen has a fresh, all-zero deferred palette and no pending palette range; its black bands are those `resetDisplay` sets for the window, as `BandsFor` gives them |
| Screen.GameTimer.constructor | src/Engine/Screen.cpp:149-154 | the slow-motion factor starts at the value given |
| Screen.Screen.SetPalette | src/Engine/Screen.cpp:211-226 | the colours are copied into the deferred palette at the offset and nothing else changes; a pending update at another offset and size widens to the full palette |
| Screen.Screen.DX | src/Engine/Screen.cpp:674-677 | the horizontal offset is half the extra base width, rounded toward zero |
| Screen.Screen.DY | src/Engine/Screen.cpp:683-686 | the vertical offset is half the extra base height, rounded toward zero |
| Screen.CursorInBlackBands | src/Engine/Screen.cpp:455-472 | without kept aspect the cursor stays out of the bands; otherwise the full-screen, window or borderless option decides |
| Screen.BandsFor | src/Engine/Screen.cpp:480-531 | a wider window gets side bands totalling the spare width; a taller one gets non-negative top and bottom bands; equal aspect or no kept aspect means no bands; the cursor bands follow the cursor option |
| Screen.OutputRect | src/Engine/Screen.cpp:535-538 | the output rectangle starts after the left and top bands and fills the rest of the window |
| Screen.PillarboxCentred | src/Engine/Screen.cpp:480-500 | the pillarboxed picture is exactly the target width, centred, with any odd pixel on the right |
| Screen.LetterboxCentred | src/Engine/Screen.cpp:502-527 | the letterboxed picture is the target height and centred when it fits, the whole height otherwise |
| Screen.PillarboxTargetFits | src/Engine/Screen.cpp:482 | the exact fitted width of a pillarboxed picture is below the window width, so the right band is never negative |
| Screen.Screen.ResetBands | src/Engine/Screen.cpp:480-538 | the bands and output rectangle set are those of `BandsFor` and `OutputRect` |
| Renderer.Registered | src/Engine/Renderer.cpp:10-17 | afterwards the pair is listed, earlier entries keep their order, the list grows by one iff the pair was new, and no duplicates arise |
| Renderer.RegisteredIdempotent | src/Engine/Renderer.cpp:13 | registering a pair twice is the same as registering it once |
| Renderer.RegisteredAllKeepsPrefix | src/Engine/Renderer.cpp:10-17 | after any registrations the list keeps its old entries, in order, at its front |
| Renderer.RegisteredAllMembers | src/Engine/Renderer.cpp:10-17 | after any registrations the list holds exactly the old and the registered pairs |
| Renderer.RegisteredAllDistinct | src/Engine/Renderer.cpp:10-17 | a list without duplicates stays without duplicates under any registrations |
| Renderer.UpscalerRegistry.RegisterUpscaler | src/Engine/Renderer.cpp:10-17 | the list becomes `Registered` of the old list and keeps having no duplicates |
| Renderer.UpscalerRegistry.GetRegisteredUpscalers | src/Engine/Renderer.cpp:20-23 | returns exactly the current list |
| SaveNode.AsInt | src/Savegame/MissionSite.cpp:42 | a stored integer that fits an `int` is read back; an absent key, a scalar of another kind or an out-of-range integer reads as the fallback |
| SaveNode.AsSize | src/Savegame/MissionSite.cpp:43 | a stored integer that fits a `size_t` is read back; an absent key, a scalar of another kind or an out-of-range integer reads as the fallback |
| SaveNode.AsString | src/Savegame/MissionSite.cpp:44 | a stored string is read back; an absent key or a scalar of another kind reads as the fallback |
| SaveNode.AsBool | src/Savegame/MissionSite.cpp:45 | a stored flag is read back; an absent key or a scalar of another kind reads as the fallback |
| MissionSite.MissionSite.constructor | src/Savegame/MissionSite.cpp:30-33 | a new site has texture -1, no time left, is not in battle and is not detected |
| MissionSite.LoadSite | src/Savegame/MissionSite.cpp:39-48 | every field whose key is absent keeps its value; a node without site keys changes nothing |
| MissionSite.MissionSite.Load | src/Savegame/MissionSite.cpp:39-48 | the fields become those of `LoadSite` over the old fields; rules, deployments and city are untouched |
| MissionSite.MissionSite.Save | src/Savegame/MissionSite.cpp:54-69 | the target's keys survive; type, deployment, texture, race and detected are always written; the time is written iff non-zero and the battle flag iff set |
| MissionSite.SaveLoadRoundTrip | src/Savegame/MissionSite.cpp:39-69 | loading a save restores the saved fields iff the omitted defaults (zero time, not in battle) already hold in the target |
| MissionSite.SaveLoadIntoFreshSite | src/Savegame/MissionSite.cpp:30-69 | a new site loaded from a save has exactly the saved fields |
| MissionSite.MissionSite.MarkerName | src/Savegame/MissionSite.cpp:85-88 | the marker name is the site's type, the deployment's marker name |
| MissionSite.MissionSite.Marker | src/Savegame/MissionSite.cpp:94-100 | -1 iff the site is undetected; then the deployment's icon, or 5 when that is -1 |
| MissionSite.MissionSite.SetAlienRace | src/Savegame/MissionSite.cpp:115-118 | the race read back is the one set |
| MissionSite.MissionSite.SetCity | src/Savegame/MissionSite.cpp:133-136 | the city read back is the one set |
| MissionSite.MissionSite.SetSecondsRemaining | src/Savegame/MissionSite.h:60 | the time read back is the one set |
| MissionSite.MissionSite.SetInBattlescape | src/Savegame/MissionSite.h:65 | the battle flag read back is the one set |
| MissionSite.MissionSite.SetTexture | src/Savegame/MissionSite.h:68 | the texture read back is the one set |
| MissionSite.MissionSite.SetDetected | src/Savegame/MissionSite.h:75 | the detected flag read back is the one set |
| AlienBase.AlienBase.constructor | src/Savegame/AlienBase.cpp:29-33 | a new base is undiscovered, not in battle, has generated no missions, and its hunt timer is the deployment's maximum frequency |
| AlienBase.LoadBase | src/Savegame/AlienBase.cpp:39-49 | every field whose key is absent keeps its value; a node without base keys changes nothing |
| AlienBase.AlienBase.Load | src/Savegame/AlienBase.cpp:39-49 | the fields become those of `LoadBase` over the old fields; the deployment is never read |
| AlienBase.AlienBase.Save | src/Savegame/AlienBase.cpp:55-69 | the target's keys survive; pact country, race, deployment, start month, hunt timer and mission count are always written; the two flags are written iff set |
| AlienBase.SaveLoadRoundTrip | src/Savegame/AlienBase.cpp:39-69 | loading a save restores the saved fields iff the omitted flags are already false in the target |
| AlienBase.SaveLoadIntoFreshBase | src/Savegame/AlienBase.cpp:29-69 | a new base loaded from a save has exactly the saved fields |
| AlienBase.AlienBase.Marker | src/Savegame/AlienBase.cpp:85-90 | -1 while undiscovered, otherwise the deployment's icon with no fallback |
| AlienBase.AlienBase.SetDeployment | src/Savegame/AlienBase.cpp:119-125 | the deployment is replaced and the hunt timer reset to its maximum frequency |
| AlienBase.AlienBase.SetPactCountry | src/Savegame/AlienBase.cpp:96-99 | the pact country read back is the one set |
| AlienBase.AlienBase.SetAlienRace | src/Savegame/AlienBase.cpp:114-117 | the race read back is the one set |
| AlienBase.AlienBase.SetInBattlescape | src/Savegame/AlienBase.h:60 | the battle flag read back is the one set |
| AlienBase.AlienBase.SetDiscovered | src/Savegame/AlienBase.h:63 | the discovered flag read back is the one set |
| AlienBase.AlienBase.SetMinutesSinceLastHunt | src/Savegame/AlienBase.h:71 | the hunt timer read back is the one set |
| AlienBase.AlienBase.SetGenMissionCount | src/Savegame/AlienBase.h:73 | the mission count read back is the one set |
| PathfindingNode.PathfindingNode.constructor | src/Battlescape/PathfindingNode.h:46-49 | `getPosition` returns the position the node was created for |
| PathfindingNode.PathfindingNode.InOpenSet | src/Battlescape/PathfindingNode.h:60 | a node is in the open set iff it has an open-set entry |
| PathfindingNode.PathfindingNode.SetChecked | src/Battlescape/PathfindingNode.h:52-62 | the node is checked afterwards; only the checked flag changes, so open-set membership, `getPrevNode`, `getPrevDir` and `getTUGuess` read the same as before |
| PathfindingNode.MinNodeCostsStrict | src/Battlescape/PathfindingNode.h:86-89 | no node comes before itself, and two nodes never come before each other |
| PathfindingNode.MinNodeCostsTransitive | src/Battlescape/PathfindingNode.h:86-89 | the cost order is transitive |
| PathfindingNode.MinNodeCostsTies | src/Battlescape/PathfindingNode.h:88 | two nodes are unordered iff their costs are equal: there is no tie-break |
| PathfindingNode.MinNodeCostsIncomparableTransitive | src/Battlescape/PathfindingNode.h:86-89 | being unordered is transitive, so the order is a strict weak order |

## Left out

- File and YAML input/output is not modelled:
  - the FileMap scans at the start of `refreshMods` and its final `save()`;
  - `Options::load`/`save`, the option table of `Options::create` and `updateOptions`;
  - the language files themselves;
  - `Target::load`/`save`, which are not part of this model and appear as the `base` node.
- Filesystem queries are inputs:
  - `CrossPlatform::findDataFolders`/`findUserFolders`/`findConfigFolder`;
  - `folderExists`/`createFolder`;
  - `fileExists`;
  - `getLocale`.
- Logging is not modelled.
- SDL, the renderers and audio device calls are not modelled:
  - window creation in `resetDisplay`;
  - `SDL_SetPaletteColors`;
  - `flip` and the screenshot write;
  - `Mix_OpenAudio` and the channel set-up of `initAudio`;
  - touch-device queries, event polling and `SDL_Delay` in `Game::run`. The delay is returned by `Game.CycleDelay`.
- Floating point is not modelled:
  - `Game::setVolume`/`volumeExponent`;
  - the scale factors of `resetDisplay`, including the cursor-band rescale;
  - the screen-divided modes of `updateScale` and their pixel ratio.
- Screen.BandsFor: compares the two scale factors exactly, as cross-multiplied integers, where the source compares doubles. The fitted width and height computed with `floor` are inputs.
- Screen.ScaledResolution: the screen-divided modes take their integer size as an input rather than computing it from the display size.
- Game.IdleTime: the nominal frame time, which the source computes in floating point from the frame-rate options, is an input.
- Game.Game.Quit: the ironman save it performs is not modelled.
- Concurrency (the loading thread of the start state) is not modelled.
- The mod-dependency check and `ModInfo::canActivate` are not modelled. The mods that can be activated are an input set to `ModList.ActiveMods`.
- ModList.RefreshListsAvailable (and the other `Refresh` lemmas): they assume distinct ids in the old list and non-empty mod ids. The source does not check either; the mod scan guarantees non-empty ids.
- MissionSite and AlienBase: the model's save node holds typed scalars. yaml-cpp converts between scalar kinds, for example reading a number as a string; that conversion is not modelled.
- PathfindingNode: `reset`, `connect` and `getTUCost` are defined in a file that is not part of this model. `MinNodeCosts` therefore takes the non-missile TU cost as a function.
- PathfindingNode.PathfindingNode.constructor: its body is defined in a file that is not part of this model. Only the stored position is promised; the other fields start with arbitrary values.
- The `PathfindingNode` getters `getPosition`, `isChecked`, `getPrevNode`, `getPrevDir` and `getTUGuess` are functions without contracts of their own, since they only return a field. They are specified through the constructor and `SetChecked`. The getters of `MissionSite` and `AlienBase` are read as fields.
- Screen.Screen.constructor: it takes the base size, the window size, the aspect and cursor options and the fitted picture size as parameters. The source starts from 320x200 and then calls `resetDisplay`, which reads these from the options and from SDL; only the band part of `resetDisplay` is modelled.
- Screen.Screen.Handle: after Alt+Enter toggles full screen, the source calls `resetDisplay` for the new window; the model does not, so the bands keep their old value.
- Screen.GameTimer.constructor: the initial slow-motion factor is defined in `Timer.cpp`, which is not part of this model, so it is a parameter.
- Options.Globals.constructor: the language and the base resolution are initialised from the option table of `Options::create`, which is not modelled; the constructor promises nothing about them.

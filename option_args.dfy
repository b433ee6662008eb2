/**
 * The command-line grammar of `Options::loadArgs`: which arguments are options,
 * how their names are spelled, which of them take a value, and what each one
 * sets. `Options.Globals.LoadArgs` runs the loop; this module is its specification.
 */
module OptionArgs {
  import opened Common

  /** Only an argument longer than one character that starts with '-' is an option. */
  predicate IsOption(arg: string)
  {
    |arg| > 1 && arg[0] == '-'
  }

  /** The option name: one or two leading dashes stripped, then lower-cased. */
  function ArgName(arg: string): (name: string)
    requires IsOption(arg)
    ensures 0 < |name| < |arg|
    ensures forall k :: 0 <= k < |name| ==> !('A' <= name[k] <= 'Z')
    ensures name == Lower(arg[|arg| - |name|..])
  {
    Lower(if arg[1] == '-' && |arg| > 2 then arg[2..] else arg[1..])
  }

  /** `--name` and `-name` are the same option (unless the name itself starts with '-'). */
  lemma DoubleDashSameName(n: string)
    requires |n| > 0 && n[0] != '-'
    ensures IsOption("-" + n) && IsOption("--" + n)
    ensures ArgName("--" + n) == ArgName("-" + n) == Lower(n)
  {
    assert ("--" + n)[2..] == n;
    assert ("-" + n)[1..] == n;
  }

  /** A folder given on the command line gets a trailing '/' unless it is at most one character long. */
  function NormalizeFolder(f: string): (r: string)
    ensures |f| > 1 ==> |r| > 1 && r[|r| - 1] == '/'
    ensures |f| <= 1 ==> r == f
    ensures r == f || r == f + "/"
    ensures r[..|f|] == f
  {
    if |f| > 1 && f[|f| - 1] != '/' then f + "/" else f
  }

  lemma NormalizeFolderIdempotent(f: string)
    ensures NormalizeFolder(NormalizeFolder(f)) == NormalizeFolder(f)
  {
  }

  /** What one option occurrence amounts to. */
  datatype Token =
    | Continue                          // `-cont` / `-continue`: no value consumed
    | Value(name: string, value: string) // any other option and the argument after it
    | Dangling(name: string)            // an option with nothing after it: only logged

  predicate IsContinue(name: string)
  {
    name == "cont" || name == "continue"
  }

  /** The option occurrences of `argv[i..]`, scanned left to right. */
  function Tokens(argv: seq<string>, i: nat): seq<Token>
    decreases |argv| - i
  {
    if i >= |argv| then []
    else if !IsOption(argv[i]) then Tokens(argv, i + 1)
    else if IsContinue(ArgName(argv[i])) then [Continue] + Tokens(argv, i + 1)
    else if i + 1 < |argv| then [Value(ArgName(argv[i]), argv[i + 1])] + Tokens(argv, i + 2)
    else [Dangling(ArgName(argv[i]))]
  }

  /** The globals `loadArgs` may write. */
  datatype ArgSettings = ArgSettings(
    dataFolder: string,
    userFolder: string,
    configFolder: string,
    systemLocale: string,
    masterMod: string,
    commandLine: map<string, string>,
    loadLastSave: bool)

  /** Option names that are consumed by `loadArgs` itself rather than stored for later. */
  predicate IsReserved(name: string)
  {
    name == "data" || name == "user" || name == "cfg" || name == "config" ||
    name == "locale" || name == "master"
  }

  function Apply(s: ArgSettings, t: Token): ArgSettings
  {
    match t
    case Continue => s.(loadLastSave := true)
    case Dangling(_) => s
    case Value(name, v) =>
      if name == "data" then s.(dataFolder := NormalizeFolder(v))
      else if name == "user" then s.(userFolder := NormalizeFolder(v))
      else if name == "cfg" || name == "config" then s.(configFolder := NormalizeFolder(v))
      else if name == "locale" then s.(systemLocale := s.systemLocale + v)
      else if name == "master" then s.(masterMod := v)
      else s.(commandLine := s.commandLine[name := v])
  }

  function ApplyAll(s: ArgSettings, ts: seq<Token>): ArgSettings
    decreases |ts|
  {
    if ts == [] then s else ApplyAll(Apply(s, ts[0]), ts[1..])
  }

  /** The whole of `loadArgs`: the locale starts empty, `argv[0]` is the program name. */
  function LoadArgs(s: ArgSettings, argv: seq<string>): ArgSettings
  {
    ApplyAll(s.(systemLocale := ""), Tokens(argv, 1))
  }

  /** The concatenation of every `-locale` value, in order. */
  function LocaleValues(ts: seq<Token>): string
  {
    if ts == [] then ""
    else (if ts[0].Value? && ts[0].name == "locale" then ts[0].value else "") + LocaleValues(ts[1..])
  }

  /** The value of the last occurrence of an option whose name is in `names`. */
  function LastValue(ts: seq<Token>, names: set<string>): Option<string>
  {
    if ts == [] then None
    else match LastValue(ts[1..], names)
      case Some(v) => Some(v)
      case None => if ts[0].Value? && ts[0].name in names then Some(ts[0].value) else None
  }

  /** The locale is the concatenation of every `-locale` value, in order. */
  lemma {:induction false} ApplyAllLocale(s: ArgSettings, ts: seq<Token>)
    ensures ApplyAll(s, ts).systemLocale == s.systemLocale + LocaleValues(ts)
    decreases |ts|
  {
    if ts != [] {
      var s' := Apply(s, ts[0]);
      assert s'.systemLocale == s.systemLocale + (if ts[0].Value? && ts[0].name == "locale" then ts[0].value else "");
      ApplyAllLocale(s', ts[1..]);
    }
  }

  /** `-cont` / `-continue` anywhere sets the flag; nothing clears it. */
  lemma {:induction false} ApplyAllContinue(s: ArgSettings, ts: seq<Token>)
    ensures ApplyAll(s, ts).loadLastSave == (s.loadLastSave || Continue in ts)
    decreases |ts|
  {
    if ts != [] {
      ApplyAllContinue(Apply(s, ts[0]), ts[1..]);
      assert ts == [ts[0]] + ts[1..];
    }
  }

  /** The data folder comes from the last `-data` option, normalised. */
  lemma {:induction false} ApplyAllDataFolder(s: ArgSettings, ts: seq<Token>)
    ensures ApplyAll(s, ts).dataFolder ==
      (match LastValue(ts, {"data"}) case Some(v) => NormalizeFolder(v) case None => s.dataFolder)
    decreases |ts|
  {
    if ts != [] {
      var s' := Apply(s, ts[0]);
      assert s'.dataFolder == if ts[0].Value? && ts[0].name == "data" then NormalizeFolder(ts[0].value) else s.dataFolder;
      ApplyAllDataFolder(s', ts[1..]);
    }
  }

  /** The user folder comes from the last `-user` option, normalised. */
  lemma {:induction false} ApplyAllUserFolder(s: ArgSettings, ts: seq<Token>)
    ensures ApplyAll(s, ts).userFolder ==
      (match LastValue(ts, {"user"}) case Some(v) => NormalizeFolder(v) case None => s.userFolder)
    decreases |ts|
  {
    if ts != [] {
      var s' := Apply(s, ts[0]);
      assert s'.userFolder == if ts[0].Value? && ts[0].name == "user" then NormalizeFolder(ts[0].value) else s.userFolder;
      ApplyAllUserFolder(s', ts[1..]);
    }
  }

  /** The config folder comes from the last `-cfg` or `-config` option, normalised. */
  lemma {:induction false} ApplyAllConfigFolder(s: ArgSettings, ts: seq<Token>)
    ensures ApplyAll(s, ts).configFolder ==
      (match LastValue(ts, {"cfg", "config"}) case Some(v) => NormalizeFolder(v) case None => s.configFolder)
    decreases |ts|
  {
    if ts != [] {
      var s' := Apply(s, ts[0]);
      assert s'.configFolder == if ts[0].Value? && ts[0].name in {"cfg", "config"} then NormalizeFolder(ts[0].value) else s.configFolder;
      ApplyAllConfigFolder(s', ts[1..]);
    }
  }

  /** The master mod comes from the last `-master` option. */
  lemma {:induction false} ApplyAllMaster(s: ArgSettings, ts: seq<Token>)
    ensures ApplyAll(s, ts).masterMod ==
      (match LastValue(ts, {"master"}) case Some(v) => v case None => s.masterMod)
    decreases |ts|
  {
    if ts != [] {
      var s' := Apply(s, ts[0]);
      assert s'.masterMod == if ts[0].Value? && ts[0].name == "master" then ts[0].value else s.masterMod;
      ApplyAllMaster(s', ts[1..]);
    }
  }

  /** Options other than the reserved ones end up in the command-line map; the last occurrence wins. */
  lemma {:induction false} ApplyAllCommandLine(s: ArgSettings, ts: seq<Token>, k: string)
    ensures !IsReserved(k) ==>
      match LastValue(ts, {k})
      case Some(v) => k in ApplyAll(s, ts).commandLine && ApplyAll(s, ts).commandLine[k] == v
      case None => (k in ApplyAll(s, ts).commandLine <==> k in s.commandLine) &&
                   (k in s.commandLine ==> ApplyAll(s, ts).commandLine[k] == s.commandLine[k])
    ensures IsReserved(k) ==>
      (k in ApplyAll(s, ts).commandLine <==> k in s.commandLine) &&
      (k in s.commandLine ==> ApplyAll(s, ts).commandLine[k] == s.commandLine[k])
    decreases |ts|
  {
    if ts != [] {
      var s' := Apply(s, ts[0]);
      assert s'.commandLine == if ts[0].Value? && !IsReserved(ts[0].name) then s.commandLine[ts[0].name := ts[0].value] else s.commandLine;
      ApplyAllCommandLine(s', ts[1..], k);
    }
  }

  /** Where a token of `argv[i..]` can come from: the option at `i`, or the arguments after it. */
  lemma TokensHead(argv: seq<string>, i: nat, t: Token)
    requires i < |argv| && t in Tokens(argv, i)
    ensures !IsOption(argv[i]) ==> t in Tokens(argv, i + 1)
    ensures IsOption(argv[i]) && IsContinue(ArgName(argv[i])) ==> t == Continue || t in Tokens(argv, i + 1)
    ensures IsOption(argv[i]) && !IsContinue(ArgName(argv[i])) && i + 1 < |argv| ==>
      t == Value(ArgName(argv[i]), argv[i + 1]) || t in Tokens(argv, i + 2)
    ensures IsOption(argv[i]) && !IsContinue(ArgName(argv[i])) && i + 1 == |argv| ==>
      t == Dangling(ArgName(argv[i]))
  {
  }

  /** The tokens of `argv[i..]` by what `argv[i]` is. */
  lemma TokensAt(argv: seq<string>, i: nat)
    requires i < |argv|
    ensures !IsOption(argv[i]) ==> Tokens(argv, i) == Tokens(argv, i + 1)
    ensures IsOption(argv[i]) && IsContinue(ArgName(argv[i])) ==> Tokens(argv, i) == [Continue] + Tokens(argv, i + 1)
    ensures IsOption(argv[i]) && !IsContinue(ArgName(argv[i])) && i + 1 < |argv| ==>
      Tokens(argv, i) == [Value(ArgName(argv[i]), argv[i + 1])] + Tokens(argv, i + 2)
    ensures IsOption(argv[i]) && !IsContinue(ArgName(argv[i])) && i + 1 == |argv| ==>
      Tokens(argv, i) == [Dangling(ArgName(argv[i]))] + Tokens(argv, i + 1)
  {
  }

  lemma ApplyAllCons(s: ArgSettings, t: Token, rest: seq<Token>)
    ensures ApplyAll(s, [t] + rest) == ApplyAll(Apply(s, t), rest)
  {
    assert ([t] + rest)[1..] == rest;
  }

  /** A `Continue` token comes from a `-cont` / `-continue` option at or after `i`. */
  lemma {:induction false} ContinueFromOption(argv: seq<string>, i: nat)
    requires Continue in Tokens(argv, i)
    ensures exists j :: i <= j < |argv| && IsOption(argv[j]) && IsContinue(ArgName(argv[j]))
    decreases |argv| - i
  {
    TokensHead(argv, i, Continue);
    if !IsOption(argv[i]) {
      ContinueFromOption(argv, i + 1);
    } else if !IsContinue(ArgName(argv[i])) {
      ContinueFromOption(argv, i + 2);
    }
  }

  /** A `Value` token comes from an option at or after `i` and the argument right after it. */
  lemma {:induction false} ValueFromOption(argv: seq<string>, i: nat, name: string, value: string)
    requires Value(name, value) in Tokens(argv, i)
    ensures exists j :: i <= j < |argv| - 1 && IsOption(argv[j]) && !IsContinue(ArgName(argv[j])) &&
                        name == ArgName(argv[j]) && value == argv[j + 1]
    decreases |argv| - i
  {
    TokensHead(argv, i, Value(name, value));
    if !IsOption(argv[i]) || IsContinue(ArgName(argv[i])) {
      ValueFromOption(argv, i + 1, name, value);
    } else if Value(name, value) != Value(ArgName(argv[i]), argv[i + 1]) {
      ValueFromOption(argv, i + 2, name, value);
    }
  }

  /** A `Dangling` token comes from an option that is the last argument. */
  lemma {:induction false} DanglingFromLast(argv: seq<string>, i: nat, name: string)
    requires Dangling(name) in Tokens(argv, i)
    ensures IsOption(argv[|argv| - 1]) && name == ArgName(argv[|argv| - 1])
    decreases |argv| - i
  {
    TokensHead(argv, i, Dangling(name));
    if !IsOption(argv[i]) || IsContinue(ArgName(argv[i])) {
      DanglingFromLast(argv, i + 1, name);
    } else if i + 1 < |argv| {
      DanglingFromLast(argv, i + 2, name);
    }
  }

  /** Every token comes from an option at or after `i`; a value is the argument right after it. */
  lemma TokensFromOptions(argv: seq<string>, i: nat, t: Token)
    requires t in Tokens(argv, i)
    ensures t.Continue? ==> exists j :: i <= j < |argv| && IsOption(argv[j]) && IsContinue(ArgName(argv[j]))
    ensures t.Value? ==> exists j :: i <= j < |argv| - 1 && IsOption(argv[j]) && !IsContinue(ArgName(argv[j])) &&
                                     t.name == ArgName(argv[j]) && t.value == argv[j + 1]
    ensures t.Dangling? ==> IsOption(argv[|argv| - 1]) && t.name == ArgName(argv[|argv| - 1])
  {
    match t
    case Continue => ContinueFromOption(argv, i);
    case Value(name, value) => ValueFromOption(argv, i, name, value);
    case Dangling(name) => DanglingFromLast(argv, i, name);
  }

  /** Arguments that are not options produce nothing. */
  lemma {:induction false} NoOptionsNoTokens(argv: seq<string>, i: nat)
    requires forall j :: i <= j < |argv| ==> !IsOption(argv[j])
    ensures Tokens(argv, i) == []
    decreases |argv| - i
  {
    if i < |argv| {
      NoOptionsNoTokens(argv, i + 1);
    }
  }

  /** A value is consumed even when it looks like an option itself. */
  lemma ValueMayStartWithDash()
    ensures Tokens(["openxcom", "-user", "-cont"], 1) == [Value("user", "-cont")]
  {
    var argv := ["openxcom", "-user", "-cont"];
    assert IsOption(argv[1]) && ArgName(argv[1]) == "user" by {
      assert argv[1][1..] == "user";
    }
    assert Tokens(argv, 3) == [];
  }
}

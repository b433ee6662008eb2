/**
 * The game object of `Game.cpp`: the stack of UI states with deferred deletion
 * and lazy initialisation, the parts of the main loop that work on it, the
 * focus-driven run-state machine, the frame-pacing arithmetic, the language
 * choice and the audio chunk-size clamp.
 */
module Game {
  import opened Common
  import Options

  /** A UI state as the main loop sees it: whether it covers the whole screen. */
  class State {
    const isScreen: bool

    constructor (isScreen: bool)
      ensures this.isScreen == isScreen
    {
      this.isScreen := isScreen;
    }
  }

  class Game {
    /** The state stack, bottom first. */
    var states: seq<State>
    /** Popped states waiting to be freed at the start of the next cycle, oldest first. */
    var deleted: seq<State>
    /** Whether the top state has been initialised (`_init`). */
    var init: bool
    var quitting: bool

    constructor ()
      ensures states == [] && deleted == [] && !init && !quitting
    {
      states := [];
      deleted := [];
      init := false;
      quitting := false;
    }

    /** `isState`: whether `s` is the top of the stack. */
    function IsState(s: State): (b: bool)
      reads this`states
      ensures b ==> states != [] && states[|states| - 1] == s
      ensures states != [] && states[|states| - 1] == s ==> b
    {
      states != [] && states[|states| - 1] == s
    }

    /** `pushState`: `s` becomes the top; the next cycle initialises it. */
    method PushState(s: State)
      modifies this`states, this`init
      ensures states == old(states) + [s]
      ensures IsState(s) && !init
    {
      states := states + [s];
      init := false;
    }

    /** `popState`: the top moves to the deletion queue; the state below gets initialised again. */
    method PopState()
      requires states != []
      modifies this`states, this`deleted, this`init
      ensures states == old(states)[..|old(states)| - 1]
      ensures deleted == old(deleted) + [old(states)[|old(states)| - 1]]
      ensures !init
    {
      deleted := deleted + [states[|states| - 1]];
      states := states[..|states| - 1];
      init := false;
    }

    /** `setState`: pops every state, top first, then pushes `s`. */
    method SetState(s: State)
      modifies this`states, this`deleted, this`init
      ensures states == [s]
      ensures deleted == old(deleted) + Reverse(old(states))
      ensures IsState(s) && !init
    {
      while states != []
        invariant |states| <= |old(states)|
        invariant states == old(states)[..|states|]
        invariant deleted == old(deleted) + Reverse(old(states)[|states|..])
        decreases |states|
      {
        ReverseSuffixStep(old(states), |states| - 1);
        PopState();
      }
      PushState(s);
      init := false;
    }

    /** `quit`: the main loop ends after the current cycle (the ironman save is not modelled). */
    method Quit()
      modifies this`quitting
      ensures quitting
    {
      quitting := true;
    }

    /** Start of a cycle: frees the queued states, newest first. */
    method CleanUp() returns (freed: seq<State>)
      modifies this`deleted
      ensures deleted == []
      ensures freed == Reverse(old(deleted))
    {
      freed := [];
      while deleted != []
        invariant deleted == old(deleted)[..|deleted|]
        invariant freed == Reverse(old(deleted)[|deleted|..])
        decreases |deleted|
      {
        ReverseSuffixStep(old(deleted), |deleted| - 1);
        freed := freed + [deleted[|deleted| - 1]];
        deleted := deleted[..|deleted| - 1];
      }
    }

    /** Then the top state is initialised, once per push or pop; returns the state initialised, if any. */
    method InitActive() returns (initialised: Option<State>)
      requires states != []
      modifies this`init
      ensures init
      ensures old(init) ==> initialised == None
      ensures !old(init) ==> initialised == Some(states[|states| - 1])
    {
      initialised := None;
      if !init {
        init := true;
        initialised := Some(states[|states| - 1]);
      }
    }

    /**
     * The blit range: from the top down to the highest full-screen state, or the
     * bottom when there is none; the states from `start` to the top are drawn.
     */
    method BlitStart() returns (start: int)
      requires states != []
      ensures 0 <= start < |states|
      ensures start > 0 ==> states[start].isScreen
      ensures forall k :: start < k < |states| ==> !states[k].isScreen
    {
      start := |states|;
      start := start - 1;
      while start != 0 && !states[start].isScreen
        invariant 0 <= start < |states|
        invariant forall k :: start < k < |states| ==> !states[k].isScreen
      {
        start := start - 1;
      }
    }
  }

  // ---------------------------------------------------------------------------
  // Run state

  datatype RunState = Running | Slowed | Paused

  /** What losing keyboard focus does, indexed by the pause mode. */
  const KbFocusRun: seq<RunState> := [Running, Running, Slowed, Paused]
  /** What minimising or hiding the window does, indexed by the pause mode. */
  const StateRun: seq<RunState> := [Slowed, Paused, Paused, Paused]

  datatype WindowEvent =
    | FocusLost | FocusGained | Minimized | Hidden | Shown | Exposed | Restored
    | WillEnterBackground | WillEnterForeground
    /** Mouse motion, button or wheel: `touch` when SDL emulates it from a finger. */
    | MouseInput(touch: bool)
    | OtherEvent

  /** The run state after one event; `pauseMode` indexes the two tables. */
  function NextRunState(cur: RunState, ev: WindowEvent, pauseMode: int, mouseActive: bool): (r: RunState)
    requires 0 <= pauseMode < 4
    ensures ev.FocusGained? || ev.Shown? || ev.Exposed? || ev.Restored? || ev.WillEnterForeground? ==> r == Running
    ensures ev.FocusLost? ==> (r == Running <==> pauseMode <= 1) && (r == Paused <==> pauseMode == 3)
    ensures ev.Minimized? || ev.Hidden? ==> r != Running && (r == Slowed <==> pauseMode == 0)
    ensures ev.WillEnterBackground? ==> r == Paused
    ensures ev.MouseInput? ==> r == (if !ev.touch && mouseActive then Running else cur)
    ensures ev.OtherEvent? ==> r == cur
  {
    match ev
    case FocusLost => KbFocusRun[pauseMode]
    case FocusGained => Running
    case Minimized => StateRun[pauseMode]
    case Hidden => StateRun[pauseMode]
    case Shown => Running
    case Exposed => Running
    case Restored => Running
    case WillEnterBackground => Paused
    case WillEnterForeground => Running
    case MouseInput(touch) => if !touch && mouseActive then Running else cur
    case OtherEvent => cur
  }

  /** Losing focus never stops the game harder than minimising it. */
  lemma FocusLossMilderThanMinimise(cur: RunState, pauseMode: int, mouseActive: bool)
    requires 0 <= pauseMode < 4
    ensures var f := NextRunState(cur, FocusLost, pauseMode, mouseActive);
            var m := NextRunState(cur, Minimized, pauseMode, mouseActive);
      (m == Running ==> f == Running) && (f == Paused ==> m == Paused)
  {
  }

  /** How long the loop sleeps at the end of the cycle. */
  function CycleDelay(s: RunState, idleTime: int): (d: int)
    ensures s.Running? ==> d == idleTime
    ensures !s.Running? ==> d == 100
  {
    match s
    case Running => idleTime
    case Slowed => 100
    case Paused => 100
  }

  /**
   * The idle time of one cycle. `nominalFrameTime` is the frame time the source
   * computes in floating point from the frame-rate option; `start` and `end` are
   * the tick counts at the start and end of the cycle.
   */
  function IdleTime(fps: int, useOpenGL: bool, vSync: bool, start: Uint32, end: Uint32,
                    nominalFrameTime: Uint32): (idle: Uint32)
    ensures idle <= 100
    ensures !(fps > 0 && !(useOpenGL && vSync)) ==> idle == 0
    ensures fps > 0 && !(useOpenGL && vSync) ==>
      var elapsed := if end > start then end - start else 0;
      && (idle > 0 ==> elapsed + idle <= nominalFrameTime)
      && (idle < 100 ==> elapsed + idle >= nominalFrameTime)
  {
    if fps > 0 && !(useOpenGL && vSync) then
      var elapsed := if end > start then end - start else 0;
      var idle := if elapsed > nominalFrameTime then 0 else nominalFrameTime - elapsed;
      if idle > 100 then 100 else idle
    else 0
  }

  /** A tick counter that wrapped round during the cycle counts as no elapsed time. */
  lemma IdleTimeAfterWrap(fps: int, start: Uint32, end: Uint32, nominalFrameTime: Uint32)
    requires fps > 0 && end <= start
    ensures IdleTime(fps, false, false, start, end, nominalFrameTime) ==
            if nominalFrameTime > 100 then 100 else nominalFrameTime
  {
  }

  // ---------------------------------------------------------------------------
  // Languages

  const DefaultLanguage: string := "en-US"

  /** `locale.substr(0, locale.find_first_of('-'))`: the locale up to its first '-'. */
  function LanguageBase(locale: string): (r: string)
    ensures '-' !in r
    ensures |r| <= |locale| && r == locale[..|r|]
    ensures |r| < |locale| ==> locale[|r|] == '-'
  {
    if locale == [] || locale[0] == '-' then ""
    else [locale[0]] + LanguageBase(locale[1..])
  }

  /**
   * The language `loadLanguages` settles on; `available` holds the languages whose
   * file exists. A language option is kept only if available; without one, the
   * system locale, then its language part, then the default is tried.
   */
  function LanguageChoice(option: string, locale: string, available: set<string>): (r: string)
    ensures r in available || r == DefaultLanguage
    ensures option != "" ==> (r == option || r == DefaultLanguage) && (option in available ==> r == option)
    ensures option == "" && locale in available ==> r == locale
    ensures option == "" && locale !in available ==>
              r == (if LanguageBase(locale) in available then LanguageBase(locale) else DefaultLanguage)
  {
    if option == "" then
      if locale in available then locale
      else if LanguageBase(locale) in available then LanguageBase(locale)
      else DefaultLanguage
    else if option in available then option
    else DefaultLanguage
  }

  /** The choice is stable: on the next start the stored option yields the same language. */
  lemma LanguageChoiceStable(option: string, locale: string, available: set<string>)
    ensures var c := LanguageChoice(option, locale, available);
      LanguageChoice(c, locale, available) == c
  {
  }

  /**
   * `loadLanguages`: loads the default language and then, if different, the chosen
   * one over it; `Options::language` ends as the choice.
   */
  method LoadLanguages(opts: Options.Globals, locale: string, available: set<string>) returns (loaded: seq<string>)
    modifies opts`language
    ensures opts.language == LanguageChoice(old(opts.language), locale, available)
    ensures |loaded| == if opts.language == DefaultLanguage then 1 else 2
    ensures loaded[0] == DefaultLanguage && loaded[|loaded| - 1] == opts.language
  {
    var current := DefaultLanguage;
    if opts.language == "" {
      var lang := LanguageBase(locale);
      if locale in available {
        current := locale;
      } else if lang in available {
        current := lang;
      } else {
        current := DefaultLanguage;
      }
    } else if opts.language in available {
      current := opts.language;
    } else {
      current := DefaultLanguage;
    }
    loaded := [DefaultLanguage];
    if current != DefaultLanguage {
      loaded := loaded + [current];
    }
    opts.language := current;
  }

  // ---------------------------------------------------------------------------
  // Audio

  datatype AudioFormat = MixDefaultFormat | AudioS8

  function AudioFormatFor(bitDepth: int): (f: AudioFormat)
    ensures f == AudioS8 <==> bitDepth == 8
  {
    if bitDepth == 8 then AudioS8 else MixDefaultFormat
  }

  /** Rates that are not a multiple of 11025 Hz are warned about. */
  function SampleRateWarning(rate: Int32): (b: bool)
    ensures b <==> TruncDiv(rate, 11025) * 11025 != rate
  {
    rate % 11025 != 0
  }

  /** The chunk size is raised to at least 512 samples for each whole 11025 Hz of the sample rate. */
  function AudioChunkSize(rate: Int32, chunk: Int32): (r: Int32)
    ensures r >= chunk && r >= TruncDiv(rate, 11025) * 512
    ensures r == chunk || r == TruncDiv(rate, 11025) * 512
  {
    Max(TruncDiv(rate, 11025) * 512, chunk)
  }
}

/**
 * The integer logic of `Screen.cpp`: the 32-bit scaler test, the base-resolution
 * choice of `updateScale`, the deferred palette, the debug slow-speed cycle, the
 * screenshot file name, the black bands of `resetDisplay` and the centring offsets.
 */
module Screen {
  import opened Common
  import Options
  import Decimal

  const OriginalWidth: int := 320
  const OriginalHeight: int := 200

  // ---------------------------------------------------------------------------
  // use32bitScaler

  /** The largest integer scale the selected 32-bit filter supports; 0 when none is selected. */
  function MaxScale(useHQXFilter: bool, useXBRZFilter: bool): (m: int)
    ensures useHQXFilter ==> m == 4
    ensures !useHQXFilter && useXBRZFilter ==> m == 6
    ensures !useHQXFilter && !useXBRZFilter ==> m == 0
  {
    if useHQXFilter then 4 else if useXBRZFilter then 6 else 0
  }

  /** The display is the base resolution scaled by `i` in both directions. */
  predicate Fits(w: int, h: int, baseW: int, baseH: int, i: int)
  {
    w == baseW * i && h == baseH * i
  }

  /** `use32bitScaler`: whether the display is an exact multiple, 2 up to the filter's maximum, of the base resolution. */
  method Use32BitScaler(w: int, h: int, baseW: int, baseH: int, useHQXFilter: bool, useXBRZFilter: bool)
    returns (r: bool)
    ensures r <==> exists i :: 2 <= i <= MaxScale(useHQXFilter, useXBRZFilter) && Fits(w, h, baseW, baseH, i)
  {
    var maxScale := 0;
    if useHQXFilter {
      maxScale := 4;
    } else if useXBRZFilter {
      maxScale := 6;
    }
    var i := 2;
    while i <= maxScale
      invariant maxScale == MaxScale(useHQXFilter, useXBRZFilter)
      invariant 2 <= i <= Max(maxScale + 1, 2)
      invariant forall k :: 2 <= k < i ==> !Fits(w, h, baseW, baseH, k)
    {
      if w == baseW * i && h == baseH * i {
        assert Fits(w, h, baseW, baseH, i);
        return true;
      }
      i := i + 1;
    }
    return false;
  }

  // ---------------------------------------------------------------------------
  // updateScale

  /**
   * The scale option. The screen-derived modes divide the display size in floating
   * point; their integer result is carried as `width`/`height`.
   */
  datatype ScaleMode =
    | ScaleOriginal
    | Scale15x
    | Scale2x
    | ScreenDerived(width: int, height: int)
    | UnknownScale(code: int)

  /** The base resolution a scale mode asks for, never below 320x200. */
  function ScaledResolution(mode: ScaleMode): (r: (int, int))
    ensures r.0 >= OriginalWidth && r.1 >= OriginalHeight
    ensures mode.Scale15x? ==> r == (480, 300)
    ensures mode.Scale2x? ==> r == (640, 400)
    ensures mode.ScaleOriginal? || mode.UnknownScale? ==> r == (OriginalWidth, OriginalHeight)
    ensures mode.ScreenDerived? ==> r == (Max(mode.width, OriginalWidth), Max(mode.height, OriginalHeight))
  {
    var (w, h) := match mode
      case Scale15x => (OriginalWidth * 3 / 2, OriginalHeight * 3 / 2)
      case Scale2x => (OriginalWidth * 2, OriginalHeight * 2)
      case ScreenDerived(w, h) => (w, h)
      case _ => (OriginalWidth, OriginalHeight);
    (Max(w, OriginalWidth), Max(h, OriginalHeight))
  }

  /** `updateScale`: computes the scaled size and, when `change` is set, stores it as the base resolution. */
  method UpdateScale(opts: Options.Globals, mode: ScaleMode, change: bool) returns (width: int, height: int)
    modifies opts`baseXResolution, opts`baseYResolution
    ensures (width, height) == ScaledResolution(mode)
    ensures change ==> opts.baseXResolution == width && opts.baseYResolution == height
    ensures !change ==> opts.baseXResolution == old(opts.baseXResolution) && opts.baseYResolution == old(opts.baseYResolution)
  {
    match mode {
      case Scale15x =>
        width, height := OriginalWidth * 3 / 2, OriginalHeight * 3 / 2;
      case Scale2x =>
        width, height := OriginalWidth * 2, OriginalHeight * 2;
      case ScreenDerived(w, h) =>
        width, height := w, h;
      case ScaleOriginal =>
        width, height := OriginalWidth, OriginalHeight;
      case UnknownScale(_) =>
        width, height := OriginalWidth, OriginalHeight;
    }
    width := Max(width, OriginalWidth);
    height := Max(height, OriginalHeight);
    if change && (opts.baseXResolution != width || opts.baseYResolution != height) {
      opts.baseXResolution := width;
      opts.baseYResolution := height;
    }
  }

  // ---------------------------------------------------------------------------
  // Debug slow speed

  /** The F8 debug key cycles the slow-motion factor 1, 5, 15 and back to 1. */
  function NextSlowSpeed(speed: int): (r: int)
    ensures r == 1 || r == 5 || r == 15
    ensures speed == 1 ==> r == 5
    ensures speed == 5 ==> r == 15
    ensures speed != 1 && speed != 5 ==> r == 1
  {
    if speed == 1 then 5 else if speed == 5 then 15 else 1
  }

  /**
   * The slow-motion factor shared by every game timer. Its initial value is
   * defined outside this model, so the constructor takes it.
   */
  class GameTimer {
    var gameSlowSpeed: int

    constructor (speed: int)
      ensures gameSlowSpeed == speed
    {
      gameSlowSpeed := speed;
    }
  }

  /** Three presses bring any of the three factors back. */
  lemma SlowSpeedCycle(speed: int)
    requires speed == 1 || speed == 5 || speed == 15
    ensures NextSlowSpeed(NextSlowSpeed(NextSlowSpeed(speed))) == speed
  {
  }

  // ---------------------------------------------------------------------------
  // Screenshot name

  /** The screenshot file for counter `i` in `folder`. */
  function ScreenshotFile(folder: string, i: nat): (name: string)
    ensures |name| == |folder| + |Decimal.Pad3(i)| + 10
    ensures name[..|folder|] == folder
    ensures name[|name| - 4..] == ".png"
  {
    folder + "screen" + Decimal.Pad3(i) + ".png"
  }

  /** Different counters give different file names. */
  lemma ScreenshotFileInjective(folder: string, a: nat, b: nat)
    requires ScreenshotFile(folder, a) == ScreenshotFile(folder, b)
    ensures a == b
  {
    var pa, pb := Decimal.Pad3(a), Decimal.Pad3(b);
    var na, nb := ScreenshotFile(folder, a), ScreenshotFile(folder, b);
    assert |pa| == |pb|;
    assert pa == na[|folder| + 6..|na| - 4];
    assert pb == nb[|folder| + 6..|nb| - 4];
    Decimal.Pad3Injective(a, b);
  }

  /**
   * The screenshot key: counts up from 0 until the file does not exist; `existing`
   * holds the files that exist. Returns the name and its counter.
   */
  method ScreenshotName(folder: string, existing: set<string>) returns (name: string, index: nat)
    ensures name == ScreenshotFile(folder, index) && name !in existing
    ensures forall k :: 0 <= k < index ==> ScreenshotFile(folder, k) in existing
  {
    var i: nat := 0;
    ghost var seen: map<string, nat> := map[];  // each name tried so far, with its counter
    name := ScreenshotFile(folder, i);
    i := i + 1;
    while name in existing
      invariant i >= 1 && name == ScreenshotFile(folder, i - 1)
      invariant forall k :: 0 <= k < i - 1 ==> ScreenshotFile(folder, k) in existing
      invariant seen.Keys <= existing && |seen.Keys| == i - 1
      invariant forall x :: x in seen ==> seen[x] < i - 1 && x == ScreenshotFile(folder, seen[x])
      decreases |existing| - |seen.Keys|
    {
      assert name !in seen by {
        if name in seen {
          ScreenshotFileInjective(folder, seen[name], i - 1);
        }
      }
      forall k | 0 <= k < i ensures ScreenshotFile(folder, k) in existing {
        if k == i - 1 {
          assert ScreenshotFile(folder, k) == name;
        }
      }
      seen := seen[name := i - 1];
      assert |seen.Keys| <= |existing| by {
        SubsetCard(seen.Keys, existing);
      }
      name := ScreenshotFile(folder, i);
      i := i + 1;
    }
    index := i - 1;
  }

  /** SDL key codes the screen reacts to. */
  const KeyReturn: int := 13
  const KeyF8: int := 0x4000_0041

  /** An input event as far as the screen's shortcuts look at it. */
  datatype Action = KeyDown(sym: int, altHeld: bool) | OtherAction

  predicate IsKeyDown(action: Action, sym: int)
  {
    action.KeyDown? && action.sym == sym
  }

  lemma SubsetCard<T>(a: set<T>, b: set<T>)
    requires a <= b
    ensures |a| <= |b|
  {
    assert b == a + (b - a);
  }

  // ---------------------------------------------------------------------------
  // Black bands

  /** Band sizes in pixels; the cursor bands offset mouse coordinates. */
  datatype BlackBands = BlackBands(top: int, bottom: int, left: int, right: int, cursorTop: int, cursorLeft: int)

  datatype Rect = Rect(x: int, y: int, w: int, h: int)

  const NoBands := BlackBands(0, 0, 0, 0, 0, 0)

  /** Whether the mouse may move into the bands (non-Android builds). */
  function CursorInBlackBands(keepAspectRatio: bool, fullscreen: bool, borderless: bool,
                              inFullscreen: bool, inWindow: bool, inBorderlessWindow: bool): (r: bool)
    ensures !keepAspectRatio ==> !r
    ensures keepAspectRatio && fullscreen ==> r == inFullscreen
    ensures keepAspectRatio && !fullscreen && !borderless ==> r == inWindow
    ensures keepAspectRatio && !fullscreen && borderless ==> r == inBorderlessWindow
  {
    if !keepAspectRatio then false
    else if fullscreen then inFullscreen
    else if !borderless then inWindow
    else inBorderlessWindow
  }

  /** `width / baseW > height / baseH`, compared exactly. */
  predicate WiderThanBase(width: int, height: int, baseW: int, baseH: int)
  {
    width * baseH > height * baseW
  }

  /**
   * The bands `resetDisplay` sets for a `width` x `height` window over a `baseW` x
   * `baseH` picture. `targetWidth` and `targetHeight` are the picture's size scaled
   * to fit, which the source computes in floating point.
   */
  function BandsFor(width: int, height: int, baseW: int, baseH: int, keepAspectRatio: bool,
                    cursorInBands: bool, targetWidth: int, targetHeight: int): (b: BlackBands)
    ensures !keepAspectRatio ==> b == NoBands
    ensures keepAspectRatio && WiderThanBase(width, height, baseW, baseH) ==>
      && b.top == 0 && b.bottom == 0 && b.cursorTop == 0
      && b.left >= 0 && b.left + b.right == width - targetWidth
      && b.cursorLeft == (if cursorInBands then b.left else 0)
    ensures keepAspectRatio && WiderThanBase(height, width, baseH, baseW) ==>
      && b.left == 0 && b.right == 0 && b.cursorLeft == 0
      && b.top >= 0 && b.bottom >= 0
      && b.cursorTop == (if cursorInBands then b.top else 0)
    ensures width * baseH == height * baseW ==> b == NoBands
  {
    if WiderThanBase(width, height, baseW, baseH) && keepAspectRatio then
      var left := Max(TruncDiv(width - targetWidth, 2), 0);
      BlackBands(0, 0, left, width - targetWidth - left, 0, if cursorInBands then left else 0)
    else if WiderThanBase(height, width, baseH, baseW) && keepAspectRatio then
      var top := Max(TruncDiv(height - targetHeight, 2), 0);
      var bottom := Max(height - targetHeight - top, 0);
      BlackBands(top, bottom, 0, 0, if cursorInBands then top else 0, 0)
    else NoBands
  }

  /** The rectangle the picture is drawn into. */
  function OutputRect(width: int, height: int, b: BlackBands): (r: Rect)
    ensures r.x == b.left && r.y == b.top
    ensures r.x + r.w + b.right == width && r.y + r.h + b.bottom == height
  {
    Rect(b.left, b.top, width - b.left - b.right, height - b.top - b.bottom)
  }

  /** Pillarbox: the picture is exactly `targetWidth` wide and centred, the odd pixel going right. */
  lemma PillarboxCentred(width: int, height: int, baseW: int, baseH: int, cursorInBands: bool,
                         targetWidth: int, targetHeight: int)
    requires WiderThanBase(width, height, baseW, baseH)
    requires 0 <= targetWidth <= width
    ensures var b := BandsFor(width, height, baseW, baseH, true, cursorInBands, targetWidth, targetHeight);
            var r := OutputRect(width, height, b);
      r.w == targetWidth && r.h == height && b.left <= b.right <= b.left + 1
  {
  }

  /** Letterbox: the picture is `targetHeight` tall and centred when it fits, the whole height otherwise. */
  lemma LetterboxCentred(width: int, height: int, baseW: int, baseH: int, cursorInBands: bool,
                         targetWidth: int, targetHeight: int)
    requires WiderThanBase(height, width, baseH, baseW)
    ensures var b := BandsFor(width, height, baseW, baseH, true, cursorInBands, targetWidth, targetHeight);
            var r := OutputRect(width, height, b);
      && r.w == width
      && (0 <= targetHeight <= height ==> r.h == targetHeight && b.top <= b.bottom <= b.top + 1)
      && (targetHeight > height ==> r.h == height)
  {
  }

  /** The exact fitted width of a pillarboxed picture is narrower than the window. */
  lemma PillarboxTargetFits(width: int, height: int, baseW: int, baseH: int)
    requires baseW > 0 && baseH > 0 && height >= 0
    requires WiderThanBase(width, height, baseW, baseH)
    ensures 0 <= height * baseW / baseH < width
  {
    var q := height * baseW / baseH;
    assert q * baseH <= height * baseW;
    assert height * baseW < width * baseH;
    assert (width - q) * baseH > 0;
    PositiveFactor(width - q, baseH);
  }

  lemma PositiveFactor(a: int, b: int)
    requires b > 0 && a * b > 0
    ensures a > 0
  {
  }

  datatype PaletteColor = PaletteColor(r: int, g: int, b: int, a: int)

  class Screen {
    /** The 256-entry palette waiting to be pushed to the display. */
    const deferredPalette: array<PaletteColor>
    var numColors: int
    var firstColor: int
    var baseWidth: int
    var baseHeight: int
    var bands: BlackBands

    ghost predicate Valid()
      reads this
    {
      deferredPalette.Length == 256 && 0 <= firstColor && 0 <= numColors && firstColor + numColors <= 256
    }

    /**
     * A new screen: an empty palette and the bands that `resetDisplay` sets for a
     * `width` x `height` window over the base size (see `BandsFor`).
     */
    constructor (baseWidth: int, baseHeight: int, width: int, height: int, keepAspectRatio: bool,
                 cursorInBands: bool, targetWidth: int, targetHeight: int)
      ensures Valid() && fresh(deferredPalette)
      ensures forall k :: 0 <= k < 256 ==> deferredPalette[k] == PaletteColor(0, 0, 0, 0)
      ensures numColors == 0 && firstColor == 0
      ensures this.baseWidth == baseWidth && this.baseHeight == baseHeight
      ensures bands == BandsFor(width, height, baseWidth, baseHeight, keepAspectRatio, cursorInBands, targetWidth, targetHeight)
    {
      deferredPalette := new PaletteColor[256](_ => PaletteColor(0, 0, 0, 0));
      numColors := 0;
      firstColor := 0;
      this.baseWidth := baseWidth;
      this.baseHeight := baseHeight;
      bands := BandsFor(width, height, baseWidth, baseHeight, keepAspectRatio, cursorInBands, targetWidth, targetHeight);
    }

    /**
     * `setPalette`: copies `n` colours into the deferred palette from `first` on.
     * A pending partial update at another offset and count widens the pending range
     * to the whole palette.
     */
    method SetPalette(colors: seq<PaletteColor>, first: int, n: int)
      requires Valid()
      requires 0 <= first && 0 <= n && first + n <= 256 && n <= |colors|
      modifies deferredPalette, this`numColors, this`firstColor
      ensures Valid()
      ensures deferredPalette[..] == old(deferredPalette[..])[..first] + colors[..n] + old(deferredPalette[..])[first + n..]
      ensures if old(numColors) != 0 && old(numColors) != n && old(firstColor) != first
              then numColors == 256 && firstColor == 0
              else numColors == n && firstColor == first
    {
      forall k | first <= k < first + n {
        deferredPalette[k] := colors[k - first];
      }
      if numColors != 0 && numColors != n && firstColor != first {
        numColors := 256;
        firstColor := 0;
      } else {
        numColors := n;
        firstColor := first;
      }
    }

    /**
     * `handle`: F8 in debug mode cycles the slow-motion factor; Alt+Enter toggles
     * full screen (the display reset that follows is not modelled); otherwise the
     * screenshot key picks the first free screenshot file name, returned in `shot`.
     * `existing` is the set of files that exist.
     */
    method Handle(opts: Options.Globals, timer: GameTimer, action: Action, debug: bool,
                  keyScreenshot: int, existing: set<string>) returns (shot: Option<string>)
      modifies timer`gameSlowSpeed, opts`display
      ensures debug && IsKeyDown(action, KeyF8)
        ==> timer.gameSlowSpeed == NextSlowSpeed(old(timer.gameSlowSpeed))
      ensures !(debug && IsKeyDown(action, KeyF8))
        ==> timer.gameSlowSpeed == old(timer.gameSlowSpeed)
      ensures action == KeyDown(KeyReturn, true)
        ==> opts.display == old(opts.display).(fullscreen := !old(opts.display.fullscreen)) && shot == None
      ensures action != KeyDown(KeyReturn, true) ==> opts.display == old(opts.display)
      ensures action != KeyDown(KeyReturn, true) && IsKeyDown(action, keyScreenshot)
        ==> shot.Some? && shot.value !in existing &&
            (exists k: nat :: shot.value == ScreenshotFile(opts.MasterUserFolder(), k) &&
              forall j :: 0 <= j < k ==> ScreenshotFile(opts.MasterUserFolder(), j) in existing)
      ensures !(action != KeyDown(KeyReturn, true) && IsKeyDown(action, keyScreenshot))
        ==> shot == None
    {
      if debug && action.KeyDown? && action.sym == KeyF8 {
        timer.gameSlowSpeed := NextSlowSpeed(timer.gameSlowSpeed);
      }
      shot := None;
      if action.KeyDown? && action.sym == KeyReturn && action.altHeld {
        opts.display := opts.display.(fullscreen := !opts.display.fullscreen);
      } else if action.KeyDown? && action.sym == keyScreenshot {
        var name, k := ScreenshotName(opts.MasterUserFolder(), existing);
        shot := Some(name);
        assert shot.value == ScreenshotFile(opts.MasterUserFolder(), k);
      }
    }

    /** `getDX`: half the extra base width, rounded toward zero. */
    function DX(): (dx: int)
      reads this
      ensures baseWidth >= OriginalWidth ==> 0 <= 2 * dx <= baseWidth - OriginalWidth <= 2 * dx + 1
      ensures baseWidth < OriginalWidth ==> 2 * dx - 1 <= baseWidth - OriginalWidth <= 2 * dx <= 0
    {
      TruncDiv(baseWidth - OriginalWidth, 2)
    }

    /** `getDY`: half the extra base height, rounded toward zero. */
    function DY(): (dy: int)
      reads this
      ensures baseHeight >= OriginalHeight ==> 0 <= 2 * dy <= baseHeight - OriginalHeight <= 2 * dy + 1
      ensures baseHeight < OriginalHeight ==> 2 * dy - 1 <= baseHeight - OriginalHeight <= 2 * dy <= 0
    {
      TruncDiv(baseHeight - OriginalHeight, 2)
    }

    /** The band part of `resetDisplay` for a window of `width` x `height`. */
    method ResetBands(width: int, height: int, keepAspectRatio: bool, cursorInBands: bool,
                      targetWidth: int, targetHeight: int) returns (outRect: Rect)
      modifies this`bands
      ensures bands == BandsFor(width, height, baseWidth, baseHeight, keepAspectRatio, cursorInBands, targetWidth, targetHeight)
      ensures outRect == OutputRect(width, height, bands)
    {
      if width * baseHeight > height * baseWidth && keepAspectRatio {
        var left := TruncDiv(width - targetWidth, 2);
        if left < 0 {
          left := 0;
        }
        bands := BlackBands(0, 0, left, width - targetWidth - left, 0, if cursorInBands then left else 0);
      } else if height * baseWidth > width * baseHeight && keepAspectRatio {
        var top := TruncDiv(height - targetHeight, 2);
        if top < 0 {
          top := 0;
        }
        var bottom := height - targetHeight - top;
        if bottom < 0 {
          bottom := 0;
        }
        bands := BlackBands(top, bottom, 0, 0, if cursorInBands then top else 0, 0);
      } else {
        bands := NoBands;
      }
      outRect := Rect(bands.left, bands.top, width - bands.left - bands.right, height - bands.top - bands.bottom);
    }
  }
}

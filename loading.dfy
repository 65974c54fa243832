/** The loading screen (assets/js/modules/loading.js): a fixed sequence of
    progress steps shown in order, then the screen is hidden and
    `loading:complete` is dispatched. */
module Loading {
  import opened Wrappers

  datatype LoadStep = LoadStep(progress: int, text: string)

  /** `loadingSteps`. */
  const LoadingSteps: seq<LoadStep> := [
    LoadStep(20, "Loading assets..."),
    LoadStep(40, "Initializing components..."),
    LoadStep(60, "Loading GitHub data..."),
    LoadStep(80, "Setting up animations..."),
    LoadStep(100, "Almost ready...")
  ]

  /** The steps climb strictly, every step has a text, and the last one is 100. */
  lemma StepsClimbToHundred()
    ensures forall i, j :: 0 <= i < j < |LoadingSteps| ==> LoadingSteps[i].progress < LoadingSteps[j].progress
    ensures forall i :: 0 <= i < |LoadingSteps| ==> 0 < LoadingSteps[i].progress <= 100 && LoadingSteps[i].text != ""
    ensures LoadingSteps[|LoadingSteps| - 1] == LoadStep(100, "Almost ready...")
  {
  }

  class LoadingManager {
    var hasScreen: bool
    var hasBar: bool
    var hasText: bool
    var isLoading: bool
    var progress: int
    /** The bar's width in percent (also its `aria-valuenow`), once set. */
    var barWidth: Option<int>
    /** The status line, once set. */
    var statusText: Option<string>
    /** Every value written to `progress`, in order. */
    var observed: seq<int>
    /** Whether the screen has faded out and is no longer displayed. */
    var screenHidden: bool
    /** `document.body.style.overflow`, once set. */
    var bodyOverflow: Option<string>
    /** How many times `loading:complete` has been dispatched. */
    var completeEvents: nat

    /** The constructor: loading, at 0, with no elements looked up yet. */
    constructor ()
      ensures isLoading && progress == 0 && observed == [] && completeEvents == 0
      ensures !hasScreen && !hasBar && !hasText && !screenHidden
      ensures barWidth == None && statusText == None && bodyOverflow == None
    {
      hasScreen := false;
      hasBar := false;
      hasText := false;
      isLoading := true;
      progress := 0;
      barWidth := None;
      statusText := None;
      observed := [];
      screenHidden := false;
      bodyOverflow := None;
      completeEvents := 0;
    }

    /** `initElements`: which of the three elements the page has. */
    method InitElements(screen: bool, bar: bool, text: bool)
      modifies this`hasScreen, this`hasBar, this`hasText
      ensures hasScreen == screen && hasBar == bar && hasText == text
    {
      hasScreen, hasBar, hasText := screen, bar, text;
    }

    /** `updateProgress`: the progress is recorded even without a bar; the
        bar follows it when present; the status line changes only when it
        exists and the text is non-empty. */
    method UpdateProgress(p: int, text: string)
      modifies this`barWidth, this`statusText, this`progress, this`observed
      ensures progress == p && observed == old(observed) + [p]
      ensures barWidth == (if hasBar then Some(p) else old(barWidth))
      ensures statusText == (if hasText && text != "" then Some(text) else old(statusText))
    {
      if hasBar {
        barWidth := Some(p);
      }
      if hasText && text != "" {
        statusText := Some(text);
      }
      progress := p;
      observed := observed + [p];
    }

    /** `simulateLoading`: the steps are applied in order, so the progress
        written climbs through the steps' values and ends at 100. */
    method SimulateLoading()
      modifies this`barWidth, this`statusText, this`progress, this`observed
      ensures |observed| == |old(observed)| + |LoadingSteps|
      ensures forall i :: 0 <= i < |LoadingSteps| ==> observed[|old(observed)| + i] == LoadingSteps[i].progress
      ensures observed[..|old(observed)|] == old(observed)
      ensures progress == 100
      ensures barWidth == (if hasBar then Some(100) else old(barWidth))
      ensures statusText == (if hasText then Some("Almost ready...") else old(statusText))
    {
      var i := 0;
      while i < |LoadingSteps|
        invariant 0 <= i <= |LoadingSteps|
        invariant |observed| == |old(observed)| + i
        invariant observed[..|old(observed)|] == old(observed)
        invariant forall k :: 0 <= k < i ==> observed[|old(observed)| + k] == LoadingSteps[k].progress
        invariant i > 0 ==> progress == LoadingSteps[i - 1].progress
        invariant barWidth == (if hasBar && i > 0 then Some(LoadingSteps[i - 1].progress) else old(barWidth))
        invariant statusText == (if hasText && i > 0 then Some(LoadingSteps[i - 1].text) else old(statusText))
      {
        UpdateProgress(LoadingSteps[i].progress, LoadingSteps[i].text);
        i := i + 1;
      }
    }

    /** `hideLoadingScreen`, once its timers have fired: without the screen
        it resolves at once and loading never ends; otherwise the screen is
        hidden, scrolling restored, loading ends and `loading:complete` is
        dispatched once. */
    method HideLoadingScreen()
      modifies this`screenHidden, this`bodyOverflow, this`isLoading, this`completeEvents
      ensures !hasScreen ==> screenHidden == old(screenHidden) && bodyOverflow == old(bodyOverflow)
                             && isLoading == old(isLoading) && completeEvents == old(completeEvents)
      ensures hasScreen ==> screenHidden && bodyOverflow == Some("auto") && !isLoading
                            && completeEvents == old(completeEvents) + 1
    {
      if !hasScreen {
        return;
      }
      screenHidden := true;
      bodyOverflow := Some("auto");
      isLoading := false;
      completeEvents := completeEvents + 1;
    }

    /** `start`: look up the elements, run the steps, hide the screen. From
        a fresh manager the progress written is exactly 20, 40, 60, 80, 100,
        and loading ends (with one `loading:complete`) only when the page
        has the loading screen. */
    method Start(screen: bool, bar: bool, text: bool)
      modifies this
      ensures hasScreen == screen && hasBar == bar && hasText == text
      ensures progress == 100
      ensures |observed| == |old(observed)| + |LoadingSteps|
      ensures forall i :: 0 <= i < |LoadingSteps| ==> observed[|old(observed)| + i] == LoadingSteps[i].progress
      ensures isLoading == (old(isLoading) && !screen)
      ensures completeEvents == old(completeEvents) + (if screen then 1 else 0)
      ensures old(observed) == [] ==> observed == [20, 40, 60, 80, 100]
      ensures barWidth == (if bar then Some(100) else old(barWidth))
      ensures statusText == (if text then Some("Almost ready...") else old(statusText))
      ensures screenHidden == (screen || old(screenHidden))
      ensures bodyOverflow == (if screen then Some("auto") else old(bodyOverflow))
    {
      InitElements(screen, bar, text);
      SimulateLoading();
      if old(observed) == [] {
        assert forall i :: 0 <= i < 5 ==> observed[i] == LoadingSteps[i].progress;
      }
      HideLoadingScreen();
    }
  }
}

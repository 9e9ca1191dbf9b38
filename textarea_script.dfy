/**
 * The older client script (js/textfield_counter-textarea.js): a single
 * `drupalSettings.textfieldCounterTextarea` entry whose keys all share one
 * maximum, raw-length counting with no zero guard, and a submit handler
 * that blocks on the first over-limit wrapper whatever the settings say.
 */
module TextareaScript {
  import opened Options
  import opened Dom

  const Marker: string := "textfield-counter-textarea"

  /** `drupalSettings.textfieldCounterTextarea`. */
  datatype TextareaScriptSettings = TextareaScriptSettings(keys: seq<string>, maxlength: int, counterPosition: string)

  /** Every element is measured by `Number(val().length)`, and a zero maximum still binds. */
  function TextareaSpec(settings: TextareaScriptSettings): (b: BindSpec)
    ensures b.marker == Marker && b.maxlength == settings.maxlength
    ensures b.measure == RawLength && !b.guardZero
    ensures b.placement == Before <==> settings.counterPosition == "before"
  {
    BindSpec(Marker, settings.maxlength, RawLength, PlacementOf(settings.counterPosition), false)
  }

  /** `textareaWatcher(settings)` on the page. */
  method TextareaWatcher(page: Page, settings: TextareaScriptSettings)
    modifies page
    ensures page.State() == BindKeys(old(page.State()), page.doc, settings.keys, TextareaSpec(settings), s => s)
  {
    page.BindEachKey(settings.keys, TextareaSpec(settings), s => s);
  }

  /**
   * A selected element that was not yet marked gets a counter even when the
   * maximum is zero; it then shows minus the value's length.
   */
  lemma ZeroMaximumStillBinds(s: PageState, id: ElementId, settings: TextareaScriptSettings)
    requires settings.maxlength == 0
    requires (Marker, id) !in s.marks
    ensures id in Bind(s, id, TextareaSpec(settings), x => x).counters
    ensures Bind(s, id, TextareaSpec(settings), x => x).counters[id].remaining == -|ValueOf(s, id)|
  {
  }

  /** Attaching twice binds nothing twice. */
  lemma TextareaWatcherIdempotent(s: PageState, doc: Document, settings: TextareaScriptSettings)
    ensures var b := TextareaSpec(settings);
            BindKeys(BindKeys(s, doc, settings.keys, b, x => x), doc, settings.keys, b, x => x)
            == BindKeys(s, doc, settings.keys, b, x => x)
  {
    BindKeysIdempotent(s, doc, settings.keys, TextareaSpec(settings), x => x);
  }

  /** `$(form).find(".textcount_over:first")`. */
  function FirstOver(form: seq<FormNode>): (r: Option<nat>)
    ensures r.None? <==> forall i :: 0 <= i < |form| ==> !IsOver(form[i])
    ensures r.Some? ==> r.value < |form| && IsOver(form[r.value])
    ensures r.Some? ==> forall i :: 0 <= i < r.value ==> !IsOver(form[i])
  {
    if form == [] then None
    else if IsOver(form[0]) then Some(0)
    else match FirstOver(form[1..])
      case None => None
      case Some(k) => Some(k + 1)
  }

  /** The first over-limit node is the head of the document-order list of them. */
  lemma FirstOverIsFirstOfOverNodes(form: seq<FormNode>)
    ensures FirstOver(form).None? <==> OverNodes(form) == []
    ensures FirstOver(form).Some? ==> FirstOver(form).value == OverNodes(form)[0]
  {
  }

  datatype SubmitDecision = Allow | Prevent(scrollTo: nat)

  /** The submit handler: block and scroll to the first over-limit wrapper, if there is one. */
  function SubmitGate(form: seq<FormNode>): (d: SubmitDecision)
    ensures d.Prevent? <==> exists i :: 0 <= i < |form| && IsOver(form[i])
    ensures d.Prevent? ==> d.scrollTo < |form| && IsOver(form[d.scrollTo])
    ensures d.Prevent? ==> forall i :: 0 <= i < d.scrollTo ==> !IsOver(form[i])
  {
    match FirstOver(form)
    case None => Allow
    case Some(i) => Prevent(i)
  }
}

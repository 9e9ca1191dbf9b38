/**
 * The newer client script (js/textfield_counter.js): it binds a counter to
 * every element named by the keys of every `drupalSettings.textfieldCounter`
 * entry, and on submit blocks the form when an over-limit wrapper belongs to
 * an entry that asks for it.
 */
module CounterScript {
  import opened Options
  import opened Dom

  const Marker: string := "textfield-counter-text-watcher"

  /** One `drupalSettings.textfieldCounter` entry as the browser reads it; `keys` in iteration order. */
  datatype FieldSettings = FieldSettings(
    keys: seq<string>,
    maxlength: int,
    counterPosition: string,
    preventSubmit: bool,
    countHtmlCharacters: bool)

  /** The `textfieldCounter` object: its entries with their indices, in iteration order. */
  type Settings = seq<(string, FieldSettings)>

  /**
   * The binding each entry's elements get: raw length when markup counts,
   * otherwise the length of the parsed text; a zero maximum is falsy and
   * binds nothing.
   */
  function SpecOf(fs: FieldSettings): (b: BindSpec)
    ensures b.marker == Marker && b.maxlength == fs.maxlength && b.guardZero
    ensures b.measure == RawLength <==> fs.countHtmlCharacters
    ensures b.placement == Before <==> fs.counterPosition == "before"
  {
    BindSpec(Marker, fs.maxlength, if fs.countHtmlCharacters then RawLength else TextContent,
             PlacementOf(fs.counterPosition), true)
  }

  /** `textWatcher(settings)`: every entry, in order. */
  function Watch(s: PageState, doc: Document, settings: Settings, textOf: string -> string): PageState
    decreases |settings|
  {
    if settings == [] then s
    else
      var last := settings[|settings| - 1].1;
      BindKeys(Watch(s, doc, settings[..|settings| - 1], textOf), doc, last.keys, SpecOf(last), textOf)
  }

  /** Every element named by some entry carries the watcher marker. */
  ghost predicate AllWatched(s: PageState, doc: Document, settings: Settings)
  {
    forall j :: 0 <= j < |settings| ==> AllMarked(s, doc, settings[j].1.keys, Marker)
  }

  lemma {:induction false} WatchMarks(s: PageState, doc: Document, settings: Settings, textOf: string -> string)
    ensures Watch(s, doc, settings, textOf).values == s.values
    ensures s.marks <= Watch(s, doc, settings, textOf).marks
    ensures AllWatched(Watch(s, doc, settings, textOf), doc, settings)
    decreases |settings|
  {
    if settings != [] {
      var prefix := settings[..|settings| - 1];
      var last := settings[|settings| - 1].1;
      var mid := Watch(s, doc, prefix, textOf);
      WatchMarks(s, doc, prefix, textOf);
      BindKeysMarks(mid, doc, last.keys, SpecOf(last), textOf);
      forall j | 0 <= j < |settings|
        ensures AllMarked(Watch(s, doc, settings, textOf), doc, settings[j].1.keys, Marker)
      {
        if j < |settings| - 1 {
          assert prefix[j] == settings[j];
        }
      }
    }
  }

  lemma {:induction false} WatchIdle(s: PageState, doc: Document, settings: Settings, textOf: string -> string)
    requires AllWatched(s, doc, settings)
    ensures Watch(s, doc, settings, textOf) == s
    decreases |settings|
  {
    if settings != [] {
      var prefix := settings[..|settings| - 1];
      var last := settings[|settings| - 1].1;
      assert AllWatched(s, doc, prefix) by {
        forall j | 0 <= j < |prefix| ensures AllMarked(s, doc, prefix[j].1.keys, Marker) {
          assert prefix[j] == settings[j];
        }
      }
      WatchIdle(s, doc, prefix, textOf);
      assert AllMarked(s, doc, last.keys, Marker);
      BindKeysIdle(s, doc, last.keys, SpecOf(last), textOf);
    }
  }

  /** Attaching the behavior again (a later `Drupal.attachBehaviors`) binds nothing twice. */
  lemma WatchIdempotent(s: PageState, doc: Document, settings: Settings, textOf: string -> string)
    ensures Watch(Watch(s, doc, settings, textOf), doc, settings, textOf) == Watch(s, doc, settings, textOf)
  {
    WatchMarks(s, doc, settings, textOf);
    WatchIdle(Watch(s, doc, settings, textOf), doc, settings, textOf);
  }

  /**
   * After attach, every counter that was in step stays in step, and every
   * counter attach creates shows `maxlength - length` with the matching
   * tier on its wrapper.
   */
  lemma {:induction false} WatchKeepsSynced(s: PageState, doc: Document, settings: Settings, textOf: string -> string)
    ensures forall x :: Synced(s, x, textOf) ==> Synced(Watch(s, doc, settings, textOf), x, textOf)
    decreases |settings|
  {
    if settings != [] {
      var last := settings[|settings| - 1].1;
      var mid := Watch(s, doc, settings[..|settings| - 1], textOf);
      WatchKeepsSynced(s, doc, settings[..|settings| - 1], textOf);
      BindKeysKeepsSynced(mid, doc, last.keys, SpecOf(last), textOf);
      forall x | Synced(s, x, textOf) ensures Synced(Watch(s, doc, settings, textOf), x, textOf) {
        assert Synced(mid, x, textOf);
      }
    }
  }

  /** An entry with a zero maximum inserts no counter. */
  lemma ZeroMaximumBindsNoCounter(s: PageState, doc: Document, fs: FieldSettings, textOf: string -> string)
    requires fs.maxlength == 0
    ensures Watch(s, doc, [("", fs)], textOf).counters == s.counters
  {
    assert [("", fs)][..0] == [];
    GuardedZeroBindsNoCounter(s, doc, fs.keys, SpecOf(fs), textOf);
  }

  /** `textWatcher(settings)` on the page. */
  method TextWatcher(page: Page, settings: Settings, textOf: string -> string)
    modifies page
    ensures page.State() == Watch(old(page.State()), page.doc, settings, textOf)
  {
    var i := 0;
    while i < |settings|
      invariant 0 <= i <= |settings|
      invariant page.State() == Watch(old(page.State()), page.doc, settings[..i], textOf)
    {
      var fs := settings[i].1;
      page.BindEachKey(fs.keys, SpecOf(fs), textOf);
      assert settings[..i + 1][..i] == settings[..i];
      i := i + 1;
    }
    assert settings[..|settings|] == settings;
  }

  /**
   * The pair the submit handler tests: an over-limit wrapper and an entry
   * that prevents submission and whose index equals the definition id on
   * the wrapper's first counter element.
   */
  predicate Offending(n: FormNode, entry: (string, FieldSettings))
  {
    IsOver(n) && entry.1.preventSubmit && n.counterDefinitionId == Some(entry.0)
  }

  /** One of the first `j` entries offends at wrapper `n`. */
  predicate OffendedBy(n: FormNode, settings: Settings, j: nat)
    requires j <= |settings|
  {
    j > 0 && (OffendedBy(n, settings, j - 1) || Offending(n, settings[j - 1]))
  }

  lemma {:induction false} OffendedByIffSomeEntry(n: FormNode, settings: Settings, j: nat)
    requires j <= |settings|
    ensures OffendedBy(n, settings, j) <==> exists jj :: 0 <= jj < j && Offending(n, settings[jj])
  {
    if j > 0 {
      OffendedByIffSomeEntry(n, settings, j - 1);
    }
  }

  /** Some wrapper offends exactly when some (wrapper, entry) pair is offending. */
  lemma SomeOffendingPair(form: seq<FormNode>, settings: Settings)
    ensures (exists i :: 0 <= i < |form| && OffendingAt(form, settings, i))
            <==> exists i, j :: 0 <= i < |form| && 0 <= j < |settings| && Offending(form[i], settings[j])
  {
    if exists i :: 0 <= i < |form| && OffendingAt(form, settings, i) {
      var i :| 0 <= i < |form| && OffendingAt(form, settings, i);
      OffendedByIffSomeEntry(form[i], settings, |settings|);
      var j :| 0 <= j < |settings| && Offending(form[i], settings[j]);
    }
    if exists i, j :: 0 <= i < |form| && 0 <= j < |settings| && Offending(form[i], settings[j]) {
      var i, j :| 0 <= i < |form| && 0 <= j < |settings| && Offending(form[i], settings[j]);
      OffendedByIffSomeEntry(form[i], settings, |settings|);
      assert OffendingAt(form, settings, i);
    }
  }

  /** Node `i` of the form is over the limit and matched by some preventing entry. */
  predicate OffendingAt(form: seq<FormNode>, settings: Settings, i: int)
  {
    0 <= i < |form| && OffendedBy(form[i], settings, |settings|)
  }

  /** How many of the first `j` entries offend at wrapper `n`. */
  function CountOffending(n: FormNode, settings: Settings, j: nat): (c: nat)
    requires j <= |settings|
    ensures c <= j
    ensures c > 0 <==> OffendedBy(n, settings, j)
  {
    if j == 0 then 0
    else CountOffending(n, settings, j - 1) + (if Offending(n, settings[j - 1]) then 1 else 0)
  }

  /** `c` copies of `v`. */
  function Copies(v: nat, c: nat): (r: seq<nat>)
    ensures |r| == c
    ensures forall x :: x in r ==> x == v
  {
    if c == 0 then [] else Copies(v, c - 1) + [v]
  }

  /**
   * The scrolls the submit handler makes when the over-limit wrappers are
   * visited in the order of `nodes`: each wrapper once per entry that
   * offends at it.
   */
  function ScrollList(form: seq<FormNode>, settings: Settings, nodes: seq<nat>): seq<nat>
    requires forall m :: 0 <= m < |nodes| ==> nodes[m] < |form|
  {
    if nodes == [] then []
    else
      var last := nodes[|nodes| - 1];
      ScrollList(form, settings, nodes[..|nodes| - 1]) + Copies(last, CountOffending(form[last], settings, |settings|))
  }

  /** Visiting one more wrapper appends its scrolls. */
  lemma ScrollListStep(form: seq<FormNode>, settings: Settings, nodes: seq<nat>, k: nat)
    requires k < |nodes|
    requires forall m :: 0 <= m < |nodes| ==> nodes[m] < |form|
    ensures ScrollList(form, settings, nodes[..k + 1])
            == ScrollList(form, settings, nodes[..k]) + Copies(nodes[k], CountOffending(form[nodes[k]], settings, |settings|))
  {
    assert nodes[..k + 1][..k] == nodes[..k];
  }

  /**
   * The inner `$.each(settings.textfieldCounter, ...)` for wrapper `node`:
   * one scroll to it per offending entry.
   */
  method ScrollsForNode(node: nat, n: FormNode, settings: Settings) returns (hits: seq<nat>)
    requires IsOver(n)
    ensures hits == Copies(node, CountOffending(n, settings, |settings|))
    ensures forall x :: x in hits ==> x == node
    ensures hits != [] <==> OffendedBy(n, settings, |settings|)
  {
    hits := [];
    var j := 0;
    while j < |settings|
      invariant 0 <= j <= |settings|
      invariant hits == Copies(node, CountOffending(n, settings, j))
    {
      if settings[j].1.preventSubmit && n.counterDefinitionId == Some(settings[j].0) {
        hits := hits + [node];
      }
      j := j + 1;
    }
  }

  predicate NonDecreasing(xs: seq<nat>)
  {
    forall a, b :: 0 <= a < b < |xs| ==> xs[a] <= xs[b]
  }

  /** Appending copies of `v` to a sorted list whose elements are below `v` keeps it sorted. */
  lemma AppendCopiesSorted(xs: seq<nat>, hits: seq<nat>, v: nat)
    requires NonDecreasing(xs)
    requires forall x :: x in xs ==> x < v
    requires forall x :: x in hits ==> x == v
    ensures NonDecreasing(xs + hits)
  {
    forall a, b | 0 <= a < b < |xs + hits| ensures (xs + hits)[a] <= (xs + hits)[b] {
      if b < |xs| {
      } else if a < |xs| {
        assert xs[a] in xs;
        assert hits[b - |xs|] in hits;
      } else {
        assert hits[a - |xs|] in hits;
        assert hits[b - |xs|] in hits;
      }
    }
  }

  /** A wrapper is scrolled to exactly when it is visited and some entry offends at it. */
  lemma {:induction false} ScrollListMembers(form: seq<FormNode>, settings: Settings, nodes: seq<nat>)
    requires forall m :: 0 <= m < |nodes| ==> nodes[m] < |form|
    ensures forall x :: x in ScrollList(form, settings, nodes) <==> x in nodes && OffendingAt(form, settings, x)
  {
    if nodes != [] {
      var init := nodes[..|nodes| - 1];
      var last := nodes[|nodes| - 1];
      ScrollListMembers(form, settings, init);
      assert nodes == init + [last];
      var hits := Copies(last, CountOffending(form[last], settings, |settings|));
      if hits != [] {
        assert hits[0] in hits;
      }
    }
  }

  /** Visiting wrappers in increasing order scrolls to them in non-decreasing order. */
  lemma {:induction false} ScrollListSorted(form: seq<FormNode>, settings: Settings, nodes: seq<nat>)
    requires forall m :: 0 <= m < |nodes| ==> nodes[m] < |form|
    requires forall a, b :: 0 <= a < b < |nodes| ==> nodes[a] < nodes[b]
    ensures NonDecreasing(ScrollList(form, settings, nodes))
  {
    if nodes != [] {
      var init := nodes[..|nodes| - 1];
      var last := nodes[|nodes| - 1];
      ScrollListSorted(form, settings, init);
      ScrollListMembers(form, settings, init);
      forall x | x in ScrollList(form, settings, init) ensures x < last {
        var m :| 0 <= m < |init| && init[m] == x;
      }
      AppendCopiesSorted(ScrollList(form, settings, init), Copies(last, CountOffending(form[last], settings, |settings|)), last);
    }
  }

  /**
   * The scrolls of the submit handler's visit of the over-limit wrappers
   * name every offending wrapper and only those, in document order.
   */
  lemma ScrollsCoverOffenders(form: seq<FormNode>, settings: Settings)
    ensures forall x :: x in ScrollList(form, settings, OverNodes(form)) ==> OffendingAt(form, settings, x)
    ensures forall i :: OffendingAt(form, settings, i) ==> i in ScrollList(form, settings, OverNodes(form))
    ensures NonDecreasing(ScrollList(form, settings, OverNodes(form)))
    ensures ScrollList(form, settings, OverNodes(form)) != [] <==> exists i :: 0 <= i < |form| && OffendingAt(form, settings, i)
    ensures ScrollList(form, settings, OverNodes(form)) != []
            <==> exists i, j :: 0 <= i < |form| && 0 <= j < |settings| && Offending(form[i], settings[j])
  {
    SomeOffendingPair(form, settings);
    var errors := OverNodes(form);
    var scrolls := ScrollList(form, settings, errors);
    ScrollListMembers(form, settings, errors);
    ScrollListSorted(form, settings, errors);
    forall i | OffendingAt(form, settings, i) ensures i in scrolls {
      OffendedByIffSomeEntry(form[i], settings, |settings|);
      assert i in errors;
    }
    if scrolls != [] {
      assert scrolls[0] in scrolls;
    }
  }

  /**
   * The submit handler: for every over-limit wrapper and every entry it
   * calls `preventDefault` and scrolls to the wrapper when the pair is
   * offending. `scrolls` lists the wrappers scrolled to, in document
   * order, each once per offending pair.
   */
  method SubmitHandler(form: seq<FormNode>, settings: Settings) returns (prevented: bool, scrolls: seq<nat>)
    ensures prevented <==> exists i :: 0 <= i < |form| && OffendingAt(form, settings, i)
    ensures prevented <==> exists i, j :: 0 <= i < |form| && 0 <= j < |settings| && Offending(form[i], settings[j])
    ensures prevented <==> scrolls != []
    ensures forall x :: x in scrolls ==> OffendingAt(form, settings, x)
    ensures forall i :: OffendingAt(form, settings, i) ==> i in scrolls
    ensures NonDecreasing(scrolls)
    ensures scrolls == ScrollList(form, settings, OverNodes(form))
  {
    var errors := OverNodes(form);
    prevented := false;
    scrolls := [];
    var k := 0;
    while k < |errors|
      invariant 0 <= k <= |errors|
      invariant prevented <==> scrolls != []
      invariant scrolls == ScrollList(form, settings, errors[..k])
    {
      var node := errors[k];
      ScrollListStep(form, settings, errors, k);
      var hits := ScrollsForNode(node, form[node], settings);
      if hits != [] {
        prevented := true;
      }
      scrolls := scrolls + hits;
      k := k + 1;
    }
    assert errors[..k] == errors;
    ScrollsCoverOffenders(form, settings);
  }
}

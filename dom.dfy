/**
 * The page as the counter scripts see it. Each form element has a current
 * value (`val()`), a parent wrapper with a class list, and the
 * `jQuery.once` markers put on it; a bound element has a counter, whose
 * record holds what the binding closure keeps (its maximum, how it
 * measures, where the counter sits, the remaining count it displays) and
 * whose keyup handler recomputes it. `checkClasses` is identical in both
 * script files and is defined here once. The two binding loops differ in
 * whether a zero maximum is skipped, in how the value is measured and in
 * the shape of their settings; they share one loop here, `Bind`, whose
 * `BindSpec` carries those differences.
 */
module Dom {
  import opened Options

  type ElementId = nat

  const WarningClass: string := "textcount_warning"
  const OverClass: string := "textcount_over"

  datatype Threshold = Normal | Warning | Over

  /** The three tiers: over below zero, warning from zero to five, normal above. */
  function ThresholdFor(remaining: int): Threshold
  {
    if remaining < 0 then Over else if remaining <= 5 then Warning else Normal
  }

  /** A wrapper class list shows the tier `t`: the warning class exactly for Warning, the over class exactly for Over. */
  predicate Shows(classes: set<string>, t: Threshold)
  {
    (WarningClass in classes <==> t == Warning) && (OverClass in classes <==> t == Over)
  }

  /** The wrapper classes after `checkClasses(wrapper, remaining)`. */
  function ClassesAfter(classes: set<string>, remaining: int): (r: set<string>)
    ensures Shows(r, ThresholdFor(remaining))
    ensures !(WarningClass in r && OverClass in r)
    ensures r - {WarningClass, OverClass} == classes - {WarningClass, OverClass}
  {
    if remaining <= 5 && remaining >= 0 then classes - {OverClass} + {WarningClass}
    else if remaining < 0 then classes - {WarningClass} + {OverClass}
    else classes - {WarningClass, OverClass}
  }

  /** Classes that already show the tier are left exactly as they are. */
  lemma ClassesAfterKeepsShownTier(classes: set<string>, remaining: int)
    requires Shows(classes, ThresholdFor(remaining))
    ensures ClassesAfter(classes, remaining) == classes
  {
  }

  /** How a binding measures the value: raw `.length`, or the length of the HTML-parsed text. */
  datatype Measure = RawLength | TextContent

  /**
   * The measured length. `textOf` is `$("<div/>").html(v).text()`, which is
   * not part of this model; `.length` is taken as the code-point count.
   */
  function Length(m: Measure, value: string, textOf: string -> string): nat
  {
    match m
    case RawLength => |value|
    case TextContent => |textOf(value)|
  }

  /** Where the counter is inserted relative to the element. */
  datatype Placement = Before | After

  /** `counterPosition === "before"` puts the counter before the element, anything else after. */
  function PlacementOf(position: string): (p: Placement)
    ensures p == Before <==> position == "before"
  {
    if position == "before" then Before else After
  }

  /** The state one binding closure keeps; `remaining` is the number its counter shows. */
  datatype Counter = Counter(maxlength: int, measure: Measure, placement: Placement, remaining: int)

  /**
   * What the `.once(marker).each(...)` callback of a script does for one
   * element: its once marker, the settings it closes over and whether it
   * skips a zero maximum.
   */
  datatype BindSpec = BindSpec(marker: string, maxlength: int, measure: Measure, placement: Placement, guardZero: bool)

  /** The static document: form elements in document order, and each element's class attribute. */
  datatype Document = Document(order: seq<ElementId>, classAttribute: map<ElementId, set<string>>)

  predicate HasClass(doc: Document, id: ElementId, cls: string)
  {
    id in doc.classAttribute && cls in doc.classAttribute[id]
  }

  function SelectFrom(doc: Document, order: seq<ElementId>, cls: string): (ids: seq<ElementId>)
    ensures forall id :: id in ids <==> id in order && HasClass(doc, id, cls)
  {
    if order == [] then []
    else (if HasClass(doc, order[0], cls) then [order[0]] else []) + SelectFrom(doc, order[1..], cls)
  }

  /** `$("." + cls)`: the elements carrying the class, in document order. */
  function Select(doc: Document, cls: string): (ids: seq<ElementId>)
    ensures forall id :: id in ids <==> id in doc.order && HasClass(doc, id, cls)
  {
    SelectFrom(doc, doc.order, cls)
  }

  /** The mutable part of the page. */
  datatype PageState = PageState(
    values: map<ElementId, string>,
    wrappers: map<ElementId, set<string>>,
    marks: set<(string, ElementId)>,
    counters: map<ElementId, Counter>)

  /** `val()`; an element without readable content reads as empty. */
  function ValueOf(s: PageState, id: ElementId): string
  {
    if id in s.values then s.values[id] else ""
  }

  function WrapperOf(s: PageState, id: ElementId): set<string>
  {
    if id in s.wrappers then s.wrappers[id] else {}
  }

  /**
   * One element reached by the binding loop. A marked element is skipped;
   * otherwise it is marked, and unless the script guards a zero maximum and
   * the maximum is zero, it gets a counter showing `maxlength - length`, its
   * wrapper gets the matching tier and a keyup handler is bound.
   */
  function Bind(s: PageState, id: ElementId, b: BindSpec, textOf: string -> string): PageState
  {
    if (b.marker, id) in s.marks then s
    else
      var marked := s.(marks := s.marks + {(b.marker, id)});
      if b.guardZero && b.maxlength == 0 then marked
      else
        var remaining := b.maxlength - Length(b.measure, ValueOf(s, id), textOf);
        marked.(counters := s.counters[id := Counter(b.maxlength, b.measure, b.placement, remaining)],
                wrappers := s.wrappers[id := ClassesAfter(WrapperOf(s, id), remaining)])
  }

  /** Binding the elements of one selection, in order. */
  function BindAll(s: PageState, ids: seq<ElementId>, b: BindSpec, textOf: string -> string): PageState
    decreases |ids|
  {
    if ids == [] then s
    else Bind(BindAll(s, ids[..|ids| - 1], b, textOf), ids[|ids| - 1], b, textOf)
  }

  /** Binding the selections of a list of keys, in order. */
  function BindKeys(s: PageState, doc: Document, keys: seq<string>, b: BindSpec, textOf: string -> string): PageState
    decreases |keys|
  {
    if keys == [] then s
    else BindAll(BindKeys(s, doc, keys[..|keys| - 1], b, textOf), Select(doc, keys[|keys| - 1]), b, textOf)
  }

  /** The keyup handler of element `id`, if one is bound: recompute the remaining count and the tier. */
  function KeyupState(s: PageState, id: ElementId, textOf: string -> string): PageState
  {
    if id !in s.counters then s
    else
      var c := s.counters[id];
      var remaining := c.maxlength - Length(c.measure, ValueOf(s, id), textOf);
      s.(counters := s.counters[id := c.(remaining := remaining)],
         wrappers := s.wrappers[id := ClassesAfter(WrapperOf(s, id), remaining)])
  }

  /** Every element selected by one of `keys` carries `marker`. */
  ghost predicate AllMarked(s: PageState, doc: Document, keys: seq<string>, marker: string)
  {
    forall k, id :: k in keys && id in Select(doc, k) ==> (marker, id) in s.marks
  }

  /**
   * A bound element's counter shows `maxlength - length` of its current
   * value, and its (recorded) wrapper the matching tier. An element with no
   * counter is trivially in step.
   */
  ghost predicate Synced(s: PageState, id: ElementId, textOf: string -> string)
  {
    id in s.counters ==>
      var c := s.counters[id];
      && id in s.wrappers
      && c.remaining == c.maxlength - Length(c.measure, ValueOf(s, id), textOf)
      && Shows(WrapperOf(s, id), ThresholdFor(c.remaining))
  }

  /** Binding never changes values and only adds markers, among them one for every element of the selection. */
  lemma {:induction false} BindAllMarks(s: PageState, ids: seq<ElementId>, b: BindSpec, textOf: string -> string)
    ensures BindAll(s, ids, b, textOf).values == s.values
    ensures s.marks <= BindAll(s, ids, b, textOf).marks
    ensures forall id :: id in ids ==> (b.marker, id) in BindAll(s, ids, b, textOf).marks
    ensures forall p :: p in BindAll(s, ids, b, textOf).marks ==> p in s.marks || (p.0 == b.marker && p.1 in ids)
    decreases |ids|
  {
    if ids != [] {
      var prefix := ids[..|ids| - 1];
      BindAllMarks(s, prefix, b, textOf);
      assert ids == prefix + [ids[|ids| - 1]];
    }
  }

  /** A selection whose elements are all marked changes nothing. */
  lemma {:induction false} BindAllIdle(s: PageState, ids: seq<ElementId>, b: BindSpec, textOf: string -> string)
    requires forall id :: id in ids ==> (b.marker, id) in s.marks
    ensures BindAll(s, ids, b, textOf) == s
    decreases |ids|
  {
    if ids != [] {
      var prefix := ids[..|ids| - 1];
      assert forall id :: id in prefix ==> id in ids;
      BindAllIdle(s, prefix, b, textOf);
    }
  }

  /** After binding a key list, every element it selects is marked. */
  lemma {:induction false} BindKeysMarks(s: PageState, doc: Document, keys: seq<string>, b: BindSpec, textOf: string -> string)
    ensures BindKeys(s, doc, keys, b, textOf).values == s.values
    ensures s.marks <= BindKeys(s, doc, keys, b, textOf).marks
    ensures AllMarked(BindKeys(s, doc, keys, b, textOf), doc, keys, b.marker)
    decreases |keys|
  {
    if keys != [] {
      var prefix := keys[..|keys| - 1];
      var last := keys[|keys| - 1];
      var mid := BindKeys(s, doc, prefix, b, textOf);
      BindKeysMarks(s, doc, prefix, b, textOf);
      BindAllMarks(mid, Select(doc, last), b, textOf);
      assert keys == prefix + [last];
    }
  }

  /** A key list whose selections are all marked changes nothing. */
  lemma {:induction false} BindKeysIdle(s: PageState, doc: Document, keys: seq<string>, b: BindSpec, textOf: string -> string)
    requires AllMarked(s, doc, keys, b.marker)
    ensures BindKeys(s, doc, keys, b, textOf) == s
    decreases |keys|
  {
    if keys != [] {
      var prefix := keys[..|keys| - 1];
      assert forall k :: k in prefix ==> k in keys;
      BindKeysIdle(s, doc, prefix, b, textOf);
      BindAllIdle(s, Select(doc, keys[|keys| - 1]), b, textOf);
    }
  }

  /** Binding the same keys again is a no-op: `once` makes attach idempotent. */
  lemma BindKeysIdempotent(s: PageState, doc: Document, keys: seq<string>, b: BindSpec, textOf: string -> string)
    ensures BindKeys(BindKeys(s, doc, keys, b, textOf), doc, keys, b, textOf) == BindKeys(s, doc, keys, b, textOf)
  {
    BindKeysMarks(s, doc, keys, b, textOf);
    BindKeysIdle(BindKeys(s, doc, keys, b, textOf), doc, keys, b, textOf);
  }

  /** A guarded binding with a zero maximum inserts no counter and touches no wrapper. */
  lemma {:induction false} GuardedZeroBindsNoCounter(s: PageState, doc: Document, keys: seq<string>, b: BindSpec, textOf: string -> string)
    requires b.guardZero && b.maxlength == 0
    ensures BindKeys(s, doc, keys, b, textOf).counters == s.counters
    ensures BindKeys(s, doc, keys, b, textOf).wrappers == s.wrappers
    decreases |keys|
  {
    if keys != [] {
      var prefix := keys[..|keys| - 1];
      GuardedZeroBindsNoCounter(s, doc, prefix, b, textOf);
      GuardedZeroSelectionBindsNoCounter(BindKeys(s, doc, prefix, b, textOf), Select(doc, keys[|keys| - 1]), b, textOf);
    }
  }

  lemma {:induction false} GuardedZeroSelectionBindsNoCounter(s: PageState, ids: seq<ElementId>, b: BindSpec, textOf: string -> string)
    requires b.guardZero && b.maxlength == 0
    ensures BindAll(s, ids, b, textOf).counters == s.counters
    ensures BindAll(s, ids, b, textOf).wrappers == s.wrappers
    decreases |ids|
  {
    if ids != [] {
      GuardedZeroSelectionBindsNoCounter(s, ids[..|ids| - 1], b, textOf);
    }
  }

  /**
   * Binding one element keeps every counter that was in step in step, and
   * a counter it writes shows `maxlength - length` of the value with the
   * matching tier on the wrapper.
   */
  lemma BindKeepsSynced(s: PageState, id: ElementId, b: BindSpec, textOf: string -> string)
    ensures forall x :: Synced(s, x, textOf) ==> Synced(Bind(s, id, b, textOf), x, textOf)
    ensures (b.marker, id) !in s.marks && !(b.guardZero && b.maxlength == 0)
            ==> id in Bind(s, id, b, textOf).counters && Synced(Bind(s, id, b, textOf), id, textOf)
    ensures s.counters.Keys <= Bind(s, id, b, textOf).counters.Keys
  {
    var r := Bind(s, id, b, textOf);
    forall x | Synced(s, x, textOf) ensures Synced(r, x, textOf) {
      assert ValueOf(r, x) == ValueOf(s, x);
    }
  }

  /**
   * Binding a selection keeps in step what was in step, and every element
   * of the selection it binds for the first time ends with a counter in
   * step with its value.
   */
  lemma {:induction false} BindAllKeepsSynced(s: PageState, ids: seq<ElementId>, b: BindSpec, textOf: string -> string)
    ensures forall x :: Synced(s, x, textOf) ==> Synced(BindAll(s, ids, b, textOf), x, textOf)
    ensures forall x :: x in ids && (b.marker, x) !in s.marks && !(b.guardZero && b.maxlength == 0)
                        ==> x in BindAll(s, ids, b, textOf).counters && Synced(BindAll(s, ids, b, textOf), x, textOf)
    ensures s.counters.Keys <= BindAll(s, ids, b, textOf).counters.Keys
    decreases |ids|
  {
    if ids != [] {
      var prefix := ids[..|ids| - 1];
      var last := ids[|ids| - 1];
      var mid := BindAll(s, prefix, b, textOf);
      BindAllKeepsSynced(s, prefix, b, textOf);
      BindAllMarks(s, prefix, b, textOf);
      BindKeepsSynced(mid, last, b, textOf);
      assert ids == prefix + [last];
      forall x | x in ids && (b.marker, x) !in s.marks && !(b.guardZero && b.maxlength == 0)
        ensures x in BindAll(s, ids, b, textOf).counters && Synced(BindAll(s, ids, b, textOf), x, textOf)
      {
        if x in prefix {
          assert Synced(mid, x, textOf);
        } else {
          assert x == last;
        }
      }
    }
  }

  /** Attaching keeps in step what was in step, and every counter it creates shows `maxlength - length`. */
  lemma {:induction false} BindKeysKeepsSynced(s: PageState, doc: Document, keys: seq<string>, b: BindSpec, textOf: string -> string)
    ensures forall x :: Synced(s, x, textOf) ==> Synced(BindKeys(s, doc, keys, b, textOf), x, textOf)
    decreases |keys|
  {
    if keys != [] {
      var mid := BindKeys(s, doc, keys[..|keys| - 1], b, textOf);
      BindKeysKeepsSynced(s, doc, keys[..|keys| - 1], b, textOf);
      BindAllKeepsSynced(mid, Select(doc, keys[|keys| - 1]), b, textOf);
      forall x | Synced(s, x, textOf) ensures Synced(BindKeys(s, doc, keys, b, textOf), x, textOf) {
        assert Synced(mid, x, textOf);
      }
    }
  }

  /** A keyup brings its element's counter in step with the value and leaves the other elements alone. */
  lemma KeyupSyncs(s: PageState, id: ElementId, textOf: string -> string)
    ensures Synced(KeyupState(s, id, textOf), id, textOf)
    ensures forall x :: x != id ==> (Synced(s, x, textOf) <==> Synced(KeyupState(s, id, textOf), x, textOf))
  {
  }

  /** A keyup on an element already in step changes nothing observable. */
  lemma KeyupOnSyncedIsNoOp(s: PageState, id: ElementId, textOf: string -> string)
    requires Synced(s, id, textOf)
    ensures KeyupState(s, id, textOf) == s
  {
    if id in s.counters {
      var c := s.counters[id];
      ClassesAfterKeepsShownTier(WrapperOf(s, id), c.remaining);
      assert s.counters[id := c] == s.counters;
    }
  }

  /** Repeated keyups with an unchanged value leave the counter and the tier as the first one left them. */
  lemma KeyupIdempotent(s: PageState, id: ElementId, textOf: string -> string)
    ensures KeyupState(KeyupState(s, id, textOf), id, textOf) == KeyupState(s, id, textOf)
  {
    KeyupSyncs(s, id, textOf);
    KeyupOnSyncedIsNoOp(KeyupState(s, id, textOf), id, textOf);
  }

  /** The page: the static document and the mutable state, with the operations the scripts perform on it. */
  class Page {
    const doc: Document
    var values: map<ElementId, string>
    var wrappers: map<ElementId, set<string>>
    var marks: set<(string, ElementId)>
    var counters: map<ElementId, Counter>

    ghost function State(): PageState
      reads this
    {
      PageState(values, wrappers, marks, counters)
    }

    constructor (doc: Document, values: map<ElementId, string>, wrappers: map<ElementId, set<string>>)
      ensures this.doc == doc
      ensures State() == PageState(values, wrappers, {}, map[])
    {
      this.doc := doc;
      this.values := values;
      this.wrappers := wrappers;
      this.marks := {};
      this.counters := map[];
    }

    /** The user edits element `id`; its value becomes `value`. No handler runs yet. */
    method Edit(id: ElementId, value: string)
      modifies this
      ensures State() == old(State()).(values := old(values)[id := value])
    {
      values := values[id := value];
    }

    /** `checkClasses($(this).parent(), remaining)`. */
    method CheckClasses(id: ElementId, remaining: int)
      modifies this
      ensures State() == old(State()).(wrappers := old(wrappers)[id := ClassesAfter(WrapperOf(old(State()), id), remaining)])
    {
      var classes := if id in wrappers then wrappers[id] else {};
      if remaining <= 5 && remaining >= 0 {
        classes := classes - {OverClass};
        classes := classes + {WarningClass};
      } else if remaining < 0 {
        classes := classes - {WarningClass};
        classes := classes + {OverClass};
      } else {
        classes := classes - {WarningClass, OverClass};
      }
      wrappers := wrappers[id := classes];
    }

    /** The `.once(marker).each(...)` callback for one element. */
    method BindElement(id: ElementId, b: BindSpec, textOf: string -> string)
      modifies this
      ensures State() == Bind(old(State()), id, b, textOf)
    {
      if (b.marker, id) !in marks {
        marks := marks + {(b.marker, id)};
        if !(b.guardZero && b.maxlength == 0) {
          var value := if id in values then values[id] else "";
          var remaining := b.maxlength - Length(b.measure, value, textOf);
          counters := counters[id := Counter(b.maxlength, b.measure, b.placement, remaining)];
          CheckClasses(id, remaining);
        }
      }
    }

    /** `$("." + key).once(marker).each(...)`. */
    method BindSelected(key: string, b: BindSpec, textOf: string -> string)
      modifies this
      ensures State() == BindAll(old(State()), Select(doc, key), b, textOf)
    {
      var ids := Select(doc, key);
      var k := 0;
      while k < |ids|
        invariant 0 <= k <= |ids|
        invariant State() == BindAll(old(State()), ids[..k], b, textOf)
      {
        BindElement(ids[k], b, textOf);
        assert ids[..k + 1][..k] == ids[..k];
        k := k + 1;
      }
      assert ids[..|ids|] == ids;
    }

    /** `$.each(keys, ...)` over the keys of one settings entry. */
    method BindEachKey(keys: seq<string>, b: BindSpec, textOf: string -> string)
      modifies this
      ensures State() == BindKeys(old(State()), doc, keys, b, textOf)
    {
      var j := 0;
      while j < |keys|
        invariant 0 <= j <= |keys|
        invariant State() == BindKeys(old(State()), doc, keys[..j], b, textOf)
      {
        BindSelected(keys[j], b, textOf);
        assert keys[..j + 1][..j] == keys[..j];
        j := j + 1;
      }
      assert keys[..|keys|] == keys;
    }

    /** A keyup on element `id` runs its bound handler, if any. */
    method Keyup(id: ElementId, textOf: string -> string)
      modifies this
      ensures State() == KeyupState(old(State()), id, textOf)
    {
      if id in counters {
        var c := counters[id];
        var value := if id in values then values[id] else "";
        var remaining := c.maxlength - Length(c.measure, value, textOf);
        counters := counters[id := c.(remaining := remaining)];
        CheckClasses(id, remaining);
      }
    }
  }

  /** An element found inside a form: its classes and the definition id of its first counter element. */
  datatype FormNode = FormNode(classes: set<string>, counterDefinitionId: Option<string>)

  predicate IsOver(n: FormNode)
  {
    OverClass in n.classes
  }

  /**
   * The wrapper of an element whose counter is in step carries the over
   * class exactly when its value is longer than its maximum: the class the
   * submit gates look for.
   */
  lemma InStepWrapperIsOverIffTooLong(s: PageState, id: ElementId, textOf: string -> string, definitionId: Option<string>)
    requires id in s.counters && Synced(s, id, textOf)
    ensures IsOver(FormNode(WrapperOf(s, id), definitionId))
            <==> s.counters[id].maxlength < Length(s.counters[id].measure, ValueOf(s, id), textOf)
  {
  }

  /** Indices of the over nodes among the first `n`, in document order. */
  function OverPrefix(form: seq<FormNode>, n: nat): (ids: seq<nat>)
    requires n <= |form|
    ensures forall k :: 0 <= k < |ids| ==> ids[k] < n && IsOver(form[ids[k]])
    ensures forall i :: 0 <= i < n && IsOver(form[i]) ==> i in ids
    ensures forall a, b :: 0 <= a < b < |ids| ==> ids[a] < ids[b]
  {
    if n == 0 then [] else OverPrefix(form, n - 1) + (if IsOver(form[n - 1]) then [n - 1] else [])
  }

  /** `$(form).find(".textcount_over")`. */
  function OverNodes(form: seq<FormNode>): (ids: seq<nat>)
    ensures forall k :: 0 <= k < |ids| ==> ids[k] < |form| && IsOver(form[ids[k]])
    ensures forall i :: 0 <= i < |form| && IsOver(form[i]) ==> i in ids
    ensures forall a, b :: 0 <= a < b < |ids| ==> ids[a] < ids[b]
  {
    OverPrefix(form, |form|)
  }
}

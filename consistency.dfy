/**
 * How the server widgets and the client scripts fit together: the length
 * the server validates against the count the browser shows, and the
 * settings index the server writes against the definition id the newer
 * submit handler compares it with.
 */
module Consistency {
  import opened Options
  import opened PhpText
  import opened Widget
  import opened LengthValidation
  import opened CounterWidgetTrait
  import opened Dom
  import opened CounterScript
  import opened TextareaScript
  import StringTextareaWidget

  /**
   * What the server receives for textarea content `t` as the browser holds
   * it: browsers submit every line break as CR LF, while `val()` holds a
   * bare LF and no CR.
   */
  function SubmittedText(t: string): string
  {
    ReplaceChar(t, '\n', "\r\n")
  }

  /** The CR LF pairs of the submitted text are the line breaks of the edited text. */
  lemma {:induction false} CrLfOccurrencesInSubmitted(t: string)
    requires '\r' !in t
    ensures Occurrences(SubmittedText(t), "\r\n") == CharCount('\n', t)
  {
    if t != [] {
      var rest := SubmittedText(t[1..]);
      assert '\r' !in t[1..] by {
        assert forall c :: c in t[1..] ==> c in t;
      }
      CrLfOccurrencesInSubmitted(t[1..]);
      var s := SubmittedText(t);
      if t[0] == '\n' {
        assert s == "\r\n" + rest;
        assert s[..2] == "\r\n";
        assert s[2..] == rest;
      } else {
        assert s == [t[0]] + rest;
        assert s[1..] == rest;
        if |s| >= 2 {
          assert s[..2][0] == t[0] != '\r';
        } else {
          assert rest == [];
        }
      }
    }
  }

  /**
   * For content with markup counted, the server's validated length of what
   * is submitted equals the raw `.length` the client counts, whichever
   * `PHP_EOL` the server runs with.
   */
  lemma ServerMatchesClientRawLength(t: string, eol: string, stripTags: string -> string)
    requires '\r' !in t
    requires eol == "\n" || eol == "\r\n"
    ensures ValidatedLength(SubmittedText(t), true, eol, stripTags) == Length(RawLength, t, stripTags)
  {
    ReplaceCharLength(t, '\n', "\r\n");
    if eol == "\n" {
      OccurrencesOfChar(SubmittedText(t), '\n');
      CrLfEncodingLineFeeds(t);
    } else {
      CrLfOccurrencesInSubmitted(t);
    }
  }

  /**
   * With markup counted, the client shows an element as over the limit
   * exactly when the server rejects what it submits.
   */
  lemma ClientOverIffServerRejects(t: string, maxlength: int, eol: string, stripTags: string -> string)
    requires '\r' !in t
    requires eol == "\n" || eol == "\r\n"
    ensures ThresholdFor(maxlength - Length(RawLength, t, stripTags)) == Over
            <==> ValidateFieldFormElement(Scalar(SubmittedText(t)), true, maxlength, eol, stripTags).TooLong?
  {
    ServerMatchesClientRawLength(t, eol, stripTags);
  }

  /**
   * A pairing the widgets never set up, for comparison: were the textarea
   * validator's field watched by the older script, which counts code points
   * of the unsubmitted text while the validator counts bytes of the
   * submitted one, "a" LF "b" under a maximum of three would show a
   * warning, not an over, yet be rejected.
   */
  lemma TextareaClientAllowsWhatServerRejects()
    ensures ThresholdFor(3 - Length(RawLength, "a\nb", x => x)) == Warning
    ensures SubmittedText("a\nb") == "a\r\nb"
    ensures ValidateElement(SubmittedText("a\nb"), 3) == TooLong(4, 3)
  {
  }

  /**
   * The textarea widget's entry as the newer script reads it: the widget
   * writes neither `countHTMLCharacters` nor `preventSubmit`, and the
   * script reads both as false.
   */
  function TextareaClientEntry(cs: StringTextareaWidget.TextareaCounterSettings): (fs: FieldSettings)
    ensures fs.keys == cs.keys && fs.maxlength == cs.maxlength && fs.counterPosition == cs.counterPosition
    ensures !fs.countHtmlCharacters && !fs.preventSubmit
  {
    FieldSettings(cs.keys, cs.maxlength, cs.counterPosition, false, false)
  }

  /**
   * The pairing that does occur: the textarea widget's entry is watched by
   * the newer script, which measures the parsed text and never blocks for
   * it. For markup-free "a" LF "b" under a maximum of three the counter
   * shows a warning and submission goes ahead, yet the textarea validator
   * rejects the 4 bytes it receives.
   */
  lemma TextareaEntryAllowsWhatServerRejects(cs: StringTextareaWidget.TextareaCounterSettings, textOf: string -> string,
                                              n: FormNode, index: string)
    requires cs.maxlength == 3
    requires textOf("a\nb") == "a\nb"
    ensures ThresholdFor(SpecOf(TextareaClientEntry(cs)).maxlength - Length(SpecOf(TextareaClientEntry(cs)).measure, "a\nb", textOf)) == Warning
    ensures !Offending(n, (index, TextareaClientEntry(cs)))
    ensures ValidateElement(SubmittedText("a\nb"), 3) == TooLong(4, 3)
  {
    TextareaClientAllowsWhatServerRejects();
  }

  /** The deltas below `n` that hold a key, in ascending order: the order a script iterates the `key` object. */
  function KeysUpTo(keys: map<nat, string>, n: nat): (r: seq<string>)
    ensures forall d :: 0 <= d < n && d in keys ==> keys[d] in r
    ensures forall k :: k in r ==> exists d :: 0 <= d < n && d in keys && keys[d] == k
  {
    if n == 0 then []
    else
      var p := KeysUpTo(keys, n - 1);
      var r := p + (if n - 1 in keys then [keys[n - 1]] else []);
      assert forall k :: k in r ==> k in p || (n - 1 in keys && k == keys[n - 1]);
      r
  }

  /** The key of a smaller delta comes before the key of a larger one. */
  lemma {:induction false} KeysUpToAscending(keys: map<nat, string>, n: nat, d1: nat, d2: nat) returns (i1: nat, i2: nat)
    requires d1 < d2 < n
    requires d1 in keys && d2 in keys
    ensures i1 < i2 < |KeysUpTo(keys, n)|
    ensures KeysUpTo(keys, n)[i1] == keys[d1] && KeysUpTo(keys, n)[i2] == keys[d2]
  {
    var p := KeysUpTo(keys, n - 1);
    assert KeysUpTo(keys, n) == p + (if n - 1 in keys then [keys[n - 1]] else []);
    if d2 == n - 1 {
      assert keys[d1] in p;
      i1 :| 0 <= i1 < |p| && p[i1] == keys[d1];
      i2 := |p|;
    } else {
      i1, i2 := KeysUpToAscending(keys, n - 1, d1, d2);
    }
  }

  /** One server settings entry as the browser reads it, with deltas below `deltas`. */
  function ClientEntry(cs: CounterSettings, deltas: nat): FieldSettings
  {
    FieldSettings(KeysUpTo(cs.keys, deltas), cs.maxlength, cs.counterPosition, cs.preventSubmit, cs.countHtmlCharacters)
  }

  /** `drupalSettings.textfieldCounter` as the browser iterates it, with its indices in `order`. */
  function ClientSettings(m: map<string, CounterSettings>, order: seq<string>, deltas: nat): (s: Settings)
    requires forall j :: 0 <= j < |order| ==> order[j] in m
    ensures |s| == |order|
    ensures forall j :: 0 <= j < |s| ==> s[j] == (order[j], ClientEntry(m[order[j]], deltas))
  {
    if order == [] then []
    else [(order[0], ClientEntry(m[order[0]], deltas))] + ClientSettings(m, order[1..], deltas)
  }

  /**
   * When `order` lists every index of the server map exactly once, as the
   * iteration of an object does, the browser sees every server entry once,
   * under its own index.
   */
  lemma ClientSettingsEachEntryOnce(m: map<string, CounterSettings>, order: seq<string>, deltas: nat)
    requires forall j :: 0 <= j < |order| ==> order[j] in m
    requires forall idx :: idx in m ==> idx in order
    requires forall a, b :: 0 <= a < b < |order| ==> order[a] != order[b]
    ensures forall idx :: idx in m ==> (idx, ClientEntry(m[idx], deltas)) in ClientSettings(m, order, deltas)
    ensures forall a, b :: 0 <= a < b < |ClientSettings(m, order, deltas)| ==> ClientSettings(m, order, deltas)[a].0 != ClientSettings(m, order, deltas)[b].0
  {
    var s := ClientSettings(m, order, deltas);
    forall idx | idx in m ensures (idx, ClientEntry(m[idx], deltas)) in s {
      var j :| 0 <= j < |order| && order[j] == idx;
      assert s[j] == (idx, ClientEntry(m[idx], deltas));
    }
  }

  /** The server entry stored under the wrapper's definition id asks to prevent submission. */
  predicate PreventsFor(m: map<string, CounterSettings>, id: Option<string>)
  {
    id.Some? && id.value in m && m[id.value].preventSubmit
  }

  /** The newer gate blocks at a wrapper exactly when it is over and the entry indexed by its definition id prevents submission. */
  lemma ClientGateIsServerLookup(form: seq<FormNode>, m: map<string, CounterSettings>, order: seq<string>, deltas: nat, i: int)
    requires forall j :: 0 <= j < |order| ==> order[j] in m
    requires forall idx :: idx in m ==> idx in order
    ensures OffendingAt(form, ClientSettings(m, order, deltas), i)
            <==> 0 <= i < |form| && IsOver(form[i]) && PreventsFor(m, form[i].counterDefinitionId)
  {
    var s := ClientSettings(m, order, deltas);
    if 0 <= i < |form| {
      OffendedByIffSomeEntry(form[i], s, |s|);
      if IsOver(form[i]) && PreventsFor(m, form[i].counterDefinitionId) {
        var idx := form[i].counterDefinitionId.value;
        var j :| 0 <= j < |order| && order[j] == idx;
        assert Offending(form[i], s[j]);
      }
    }
  }

  /**
   * As written, the trait indexes every entry by an element key while the
   * wrappers carry bare definition ids, so for machine-named fields the
   * newer gate never blocks, whatever `js_prevent_submit` says.
   */
  lemma AsWrittenGateNeverBlocks(form: seq<FormNode>, m: map<string, CounterSettings>, order: seq<string>, deltas: nat,
                                 keyOwner: map<string, (Entity, FieldDefinition, nat)>, nodeOwner: seq<(Entity, FieldDefinition)>)
    requires forall j :: 0 <= j < |order| ==> order[j] in m
    requires forall idx :: idx in m ==> idx in order
    requires forall idx :: idx in m ==> idx in keyOwner
    requires forall idx :: idx in keyOwner ==>
               MachineNamed(keyOwner[idx].0, keyOwner[idx].1) && idx == ElementKey(keyOwner[idx].0, keyOwner[idx].1, keyOwner[idx].2)
    requires |nodeOwner| == |form|
    requires forall i :: 0 <= i < |form| && form[i].counterDefinitionId.Some? ==>
               MachineNamed(nodeOwner[i].0, nodeOwner[i].1) && form[i].counterDefinitionId.value == DefinitionId(nodeOwner[i].0, nodeOwner[i].1)
    ensures forall i :: !OffendingAt(form, ClientSettings(m, order, deltas), i)
  {
    forall i ensures !OffendingAt(form, ClientSettings(m, order, deltas), i) {
      ClientGateIsServerLookup(form, m, order, deltas, i);
      if 0 <= i < |form| && form[i].counterDefinitionId.Some? && form[i].counterDefinitionId.value in m {
        var idx := form[i].counterDefinitionId.value;
        var o := keyOwner[idx];
        ElementKeyIsNeverADefinitionId(o.0, o.1, o.2, nodeOwner[i].0, nodeOwner[i].1);
      }
    }
  }

  /**
   * With entries indexed by definition id, the newer gate blocks at an
   * over-limit wrapper exactly when its own field's entry prevents
   * submission.
   */
  lemma CorrectedGateBlocksIffPreventSubmit(form: seq<FormNode>, m: map<string, CounterSettings>, order: seq<string>, deltas: nat,
                                            nodeOwner: seq<(Entity, FieldDefinition)>, i: int)
    requires forall j :: 0 <= j < |order| ==> order[j] in m
    requires forall idx :: idx in m ==> idx in order
    requires |nodeOwner| == |form|
    requires 0 <= i < |form|
    requires form[i].counterDefinitionId == Some(DefinitionId(nodeOwner[i].0, nodeOwner[i].1))
    requires DefinitionId(nodeOwner[i].0, nodeOwner[i].1) in m
    ensures OffendingAt(form, ClientSettings(m, order, deltas), i)
            <==> IsOver(form[i]) && m[DefinitionId(nodeOwner[i].0, nodeOwner[i].1)].preventSubmit
  {
    ClientGateIsServerLookup(form, m, order, deltas, i);
  }

  /**
   * Whenever the newer gate blocks, the older one blocks too, at the first
   * over-limit wrapper, which comes no later than any the newer one scrolls to.
   */
  lemma NewerGateBlocksOnlyWhereOlderDoes(form: seq<FormNode>, settings: Settings)
    requires exists i :: OffendingAt(form, settings, i)
    ensures OverNodes(form) != [] && SubmitGate(form) == Prevent(OverNodes(form)[0])
    ensures forall i :: OffendingAt(form, settings, i) ==> SubmitGate(form).scrollTo <= i
  {
    var i :| OffendingAt(form, settings, i);
    OffendedByIffSomeEntry(form[i], settings, |settings|);
    assert IsOver(form[i]);
    FirstOverIsFirstOfOverNodes(form);
    forall k | OffendingAt(form, settings, k) ensures SubmitGate(form).scrollTo <= k {
      OffendedByIffSomeEntry(form[k], settings, |settings|);
      assert IsOver(form[k]);
    }
  }
}

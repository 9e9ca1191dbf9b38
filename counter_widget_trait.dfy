/**
 * The trait shared by the text widgets: how each form element gets its
 * counter key, its attributes and its `drupalSettings.textfieldCounter`
 * entry, and the settings-summary helpers. Render arrays are PHP values
 * passed by reference, so each helper takes the array and returns the
 * updated one.
 */
module CounterWidgetTrait {
  import opened Options
  import opened PhpText
  import opened Widget

  /** The widget settings the trait reads. */
  datatype WidgetSettings = WidgetSettings(
    useFieldMaxlength: bool,
    maxlength: int,
    counterPosition: string,
    jsPreventSubmit: bool,
    countHtmlCharacters: bool)

  /** A field definition: a configurable field has `id()`, a base field only a name. */
  datatype FieldDefinition = ConfigField(id: string) | BaseField(name: string)

  /** The maximum the element is limited to: the field's `max_length` or the widget's own setting. */
  function EffectiveMaxlength(settings: WidgetSettings, fieldMaxLength: int): int
  {
    if settings.useFieldMaxlength then fieldMaxLength else settings.maxlength
  }

  /** The definition id as written into the element and its key. */
  function DefinitionId(e: Entity, d: FieldDefinition): string
  {
    match d
    case ConfigField(id) => EncodeDefinitionId(id)
    case BaseField(name) => e.entityTypeId + "--" + e.bundle + "--" + name
  }

  /** The per-element key `entityType-id-definitionId-delta`. */
  function ElementKey(e: Entity, d: FieldDefinition, delta: nat): string
  {
    Implode("-", [e.entityTypeId, EntityIdSegment(e), DefinitionId(e, d), NatToString(delta)])
  }

  /** Entity type, entity id, bundle and field name are machine names; a config id may hold dots. */
  predicate MachineNamed(e: Entity, d: FieldDefinition)
  {
    && MachineName(e.entityTypeId)
    && (e.id.Some? ==> MachineName(e.id.value))
    && MachineName(e.bundle)
    && match d
       case ConfigField(id) => '-' !in id
       case BaseField(name) => MachineName(name)
  }

  /** One entry of `drupalSettings.textfieldCounter`. An entry that was never set reads as `Unset`. */
  datatype CounterSettings = CounterSettings(
    keys: map<nat, string>,
    maxlength: int,
    counterPosition: string,
    preventSubmit: bool,
    countHtmlCharacters: bool)

  const Unset: CounterSettings := CounterSettings(map[], 0, "", false, false)

  /** The parts of the element render array the trait writes. */
  datatype RenderElement = RenderElement(
    classes: seq<string>,                           // #attributes.class
    definitionIdAttribute: Option<string>,          // #attributes.data-field-definition-id
    libraries: seq<string>,                         // #attached.library
    counterSettings: map<string, CounterSettings>)  // #attached.drupalSettings.textfieldCounter

  /**
   * The common tail of `fieldFormElement`: the element's classes, its
   * definition-id attribute, the library and the settings entry at `index`.
   */
  method AttachCounter(element: RenderElement, index: string, key: string, definitionId: string, delta: nat,
                       settings: WidgetSettings, fieldMaxLength: int) returns (result: RenderElement)
    ensures result.classes == element.classes + [key, CounterElementClass]
    ensures result.definitionIdAttribute == Some(definitionId)
    ensures result.libraries == element.libraries + [CounterLibrary]
    ensures result.counterSettings.Keys == element.counterSettings.Keys + {index}
    ensures forall i :: i in element.counterSettings && i != index ==> result.counterSettings[i] == element.counterSettings[i]
    ensures var prior := ArrayEntry(element.counterSettings, index, Unset);
            result.counterSettings[index] == CounterSettings(
              prior.keys[delta := key], EffectiveMaxlength(settings, fieldMaxLength), settings.counterPosition,
              prior.preventSubmit || settings.jsPreventSubmit, settings.countHtmlCharacters)
  {
    result := element;
    result := result.(classes := result.classes + [key]);
    result := result.(classes := result.classes + [CounterElementClass]);
    result := result.(definitionIdAttribute := Some(definitionId));
    result := result.(libraries := result.libraries + [CounterLibrary]);
    var entry := ArrayEntry(result.counterSettings, index, Unset);
    entry := entry.(keys := entry.keys[delta := key]);
    entry := entry.(maxlength := EffectiveMaxlength(settings, fieldMaxLength));
    entry := entry.(counterPosition := settings.counterPosition);
    if settings.jsPreventSubmit {
      entry := entry.(preventSubmit := true);
    }
    entry := entry.(countHtmlCharacters := settings.countHtmlCharacters);
    result := result.(counterSettings := result.counterSettings[index := entry]);
  }

  /**
   * `fieldFormElement`, as written: the settings entry is indexed by the
   * element key, while the element's `data-field-definition-id` is the bare
   * definition id.
   */
  method FieldFormElement(element: RenderElement, settings: WidgetSettings, fieldMaxLength: int,
                          entity: Entity, definition: FieldDefinition, delta: nat) returns (result: RenderElement)
    ensures var key := ElementKey(entity, definition, delta);
            && result.classes == element.classes + [key, CounterElementClass]
            && result.definitionIdAttribute == Some(DefinitionId(entity, definition))
            && result.libraries == element.libraries + [CounterLibrary]
            && result.counterSettings.Keys == element.counterSettings.Keys + {key}
            && (forall i :: i in element.counterSettings && i != key ==> result.counterSettings[i] == element.counterSettings[i])
            && var prior := ArrayEntry(element.counterSettings, key, Unset);
               result.counterSettings[key] == CounterSettings(
                 prior.keys[delta := key], EffectiveMaxlength(settings, fieldMaxLength), settings.counterPosition,
                 prior.preventSubmit || settings.jsPreventSubmit, settings.countHtmlCharacters)
  {
    var keys := [entity.entityTypeId];
    keys := keys + [EntityIdSegment(entity)];
    var definitionId;
    if definition.ConfigField? {
      definitionId := EncodeDefinitionId(definition.id);
    } else {
      definitionId := entity.entityTypeId + "--" + entity.bundle + "--" + definition.name;
    }
    keys := keys + [definitionId];
    keys := keys + [NatToString(delta)];
    assert definitionId == DefinitionId(entity, definition);
    assert keys == [entity.entityTypeId, EntityIdSegment(entity), definitionId, NatToString(delta)];
    var key := Implode("-", keys);
    result := AttachCounter(element, key, key, definitionId, delta, settings, fieldMaxLength);
  }

  /**
   * `fieldFormElement` with the settings entry indexed by the definition id,
   * the string the submit gate compares it with (and the index the plain
   * text-field widget uses).
   */
  method FieldFormElementByDefinition(element: RenderElement, settings: WidgetSettings, fieldMaxLength: int,
                                      entity: Entity, definition: FieldDefinition, delta: nat) returns (result: RenderElement)
    ensures var key := ElementKey(entity, definition, delta);
            var index := DefinitionId(entity, definition);
            && result.classes == element.classes + [key, CounterElementClass]
            && result.definitionIdAttribute == Some(index)
            && result.libraries == element.libraries + [CounterLibrary]
            && result.counterSettings.Keys == element.counterSettings.Keys + {index}
            && (forall i :: i in element.counterSettings && i != index ==> result.counterSettings[i] == element.counterSettings[i])
            && var prior := ArrayEntry(element.counterSettings, index, Unset);
               result.counterSettings[index] == CounterSettings(
                 prior.keys[delta := key], EffectiveMaxlength(settings, fieldMaxLength), settings.counterPosition,
                 prior.preventSubmit || settings.jsPreventSubmit, settings.countHtmlCharacters)
  {
    var definitionId := DefinitionId(entity, definition);
    var key := ElementKey(entity, definition, delta);
    result := AttachCounter(element, definitionId, key, definitionId, delta, settings, fieldMaxLength);
  }

  /** The key is `entityType-`, then the id or 0, then the definition id, then `-delta`. */
  lemma ElementKeyShape(e: Entity, d: FieldDefinition, delta: nat)
    ensures ElementKey(e, d, delta)
         == e.entityTypeId + "-" + EntityIdSegment(e) + "-" + DefinitionId(e, d) + "-" + NatToString(delta)
  {
    var a, b, c := e.entityTypeId, EntityIdSegment(e), DefinitionId(e, d);
    ImplodeSnoc("-", [a], b);
    assert [a] + [b] == [a, b];
    ImplodeSnoc("-", [a, b], c);
    assert [a, b] + [c] == [a, b, c];
    ImplodeSnoc("-", [a, b, c], NatToString(delta));
    assert [a, b, c] + [NatToString(delta)] == [a, b, c, NatToString(delta)];
  }

  /** Two deltas of one field never share a key. */
  lemma ElementKeysDifferByDelta(e: Entity, d: FieldDefinition, m: nat, n: nat)
    requires m != n
    ensures ElementKey(e, d, m) != ElementKey(e, d, n)
  {
    ElementKeyShape(e, d, m);
    ElementKeyShape(e, d, n);
    var prefix := e.entityTypeId + "-" + EntityIdSegment(e) + "-" + DefinitionId(e, d) + "-";
    if ElementKey(e, d, m) == ElementKey(e, d, n) {
      assert (prefix + NatToString(m))[|prefix|..] == NatToString(m);
      assert (prefix + NatToString(n))[|prefix|..] == NatToString(n);
      NatToStringInjective(m, n);
    }
  }

  /** Machine names leave no dot in the key, so `"." + key` selects exactly that class. */
  lemma ElementKeyHasNoDot(e: Entity, d: FieldDefinition, delta: nat)
    requires MachineNamed(e, d)
    ensures '.' !in ElementKey(e, d, delta)
  {
    ElementKeyShape(e, d, delta);
    var a, b, c, n := e.entityTypeId, EntityIdSegment(e), DefinitionId(e, d), NatToString(delta);
    assert '.' !in n;
    assert '.' !in c by {
      if d.BaseField? {
        assert c == a + "--" + e.bundle + "--" + d.name;
      }
    }
    assert '.' !in b;
    assert ElementKey(e, d, delta) == a + "-" + b + "-" + c + "-" + n;
  }

  /** A definition id of machine-named parts holds an even number of dashes. */
  lemma DefinitionIdDashesEven(e: Entity, d: FieldDefinition) returns (k: nat)
    requires MachineNamed(e, d)
    ensures CharCount('-', DefinitionId(e, d)) == 2 * k
  {
    match d
    case ConfigField(id) =>
      EncodedDefinitionIdDashes(id);
      k := CharCount('.', id);
    case BaseField(name) =>
      var t, b := e.entityTypeId, e.bundle;
      CharCountAppend('-', t, "--");
      CharCountAppend('-', t + "--", b);
      CharCountAppend('-', t + "--" + b, "--");
      CharCountAppend('-', t + "--" + b + "--", name);
      assert CharCount('-', "--") == 2 by {
        assert "--"[1..][1..] == [];
      }
      k := 2;
  }

  /** An element key of machine-named parts holds an odd number of dashes. */
  lemma ElementKeyDashesOdd(e: Entity, d: FieldDefinition, delta: nat) returns (k: nat)
    requires MachineNamed(e, d)
    ensures CharCount('-', ElementKey(e, d, delta)) == 2 * k + 3
  {
    ElementKeyShape(e, d, delta);
    var a, b, c, n := e.entityTypeId, EntityIdSegment(e), DefinitionId(e, d), NatToString(delta);
    var j := DefinitionIdDashesEven(e, d);
    assert '-' !in n;
    assert '-' !in b;
    assert CharCount('-', "-") == 1 by {
      assert "-"[1..] == [];
    }
    CharCountAppend('-', a, "-");
    CharCountAppend('-', a + "-", b);
    CharCountAppend('-', a + "-" + b, "-");
    CharCountAppend('-', a + "-" + b + "-", c);
    CharCountAppend('-', a + "-" + b + "-" + c, "-");
    CharCountAppend('-', a + "-" + b + "-" + c + "-", n);
    k := j;
  }

  /**
   * No element key equals any definition id of machine-named parts: they
   * differ in the parity of their dash counts.
   */
  lemma ElementKeyIsNeverADefinitionId(e1: Entity, d1: FieldDefinition, delta: nat, e2: Entity, d2: FieldDefinition)
    requires MachineNamed(e1, d1) && MachineNamed(e2, d2)
    ensures ElementKey(e1, d1, delta) != DefinitionId(e2, d2)
  {
    var k1 := ElementKeyDashesOdd(e1, d1, delta);
    var k2 := DefinitionIdDashesEven(e2, d2);
  }

  /** `addMaxlengthSummary`. */
  method AddMaxlengthSummary(summary: map<string, SummaryLine>, settings: WidgetSettings, fieldMaxLength: int)
    returns (result: map<string, SummaryLine>)
    ensures result.Keys == summary.Keys + {"maxlength"}
    ensures forall k :: k in summary && k != "maxlength" ==> result[k] == summary[k]
    ensures result["maxlength"].MaximumLine?
    ensures result["maxlength"].fieldDefault <==> settings.useFieldMaxlength
    ensures result["maxlength"].count.None? <==> !settings.useFieldMaxlength && settings.maxlength == 0
    ensures result["maxlength"].count.Some? ==> result["maxlength"].count.value == EffectiveMaxlength(settings, fieldMaxLength)
  {
    var text;
    if settings.useFieldMaxlength {
      text := MaximumLine(Some(fieldMaxLength), true);
    } else {
      var maxlength := settings.maxlength;
      text := MaximumLine(if maxlength != 0 then Some(maxlength) else None, false);
    }
    result := summary["maxlength" := text];
  }

  /** `addPositionSummary`: only while some maximum is in force. */
  method AddPositionSummary(summary: map<string, SummaryLine>, settings: WidgetSettings)
    returns (result: map<string, SummaryLine>)
    ensures settings.maxlength != 0 || settings.useFieldMaxlength
            ==> result == summary["counter_position" := PositionLine(TranslateValue(settings.counterPosition))]
    ensures settings.maxlength == 0 && !settings.useFieldMaxlength ==> result == summary
  {
    result := summary;
    if settings.maxlength != 0 || settings.useFieldMaxlength {
      result := result["counter_position" := PositionLine(TranslateValue(settings.counterPosition))];
    }
  }

  /** `addJsSubmitPreventSummary`: only for a nonzero widget maximum, not the field default. */
  method AddJsSubmitPreventSummary(summary: map<string, SummaryLine>, settings: WidgetSettings)
    returns (result: map<string, SummaryLine>)
    ensures settings.maxlength != 0 && !settings.useFieldMaxlength
            ==> result == summary["js_prevent_submit" := PreventSubmitLine(settings.jsPreventSubmit)]
    ensures settings.maxlength == 0 || settings.useFieldMaxlength ==> result == summary
  {
    result := summary;
    if settings.maxlength != 0 && !settings.useFieldMaxlength {
      result := result["js_prevent_submit" := PreventSubmitLine(settings.jsPreventSubmit)];
    }
  }

  /** `addCountHtmlPreventSummary`: only while some maximum is in force. */
  method AddCountHtmlPreventSummary(summary: map<string, SummaryLine>, settings: WidgetSettings)
    returns (result: map<string, SummaryLine>)
    ensures settings.maxlength != 0 || settings.useFieldMaxlength
            ==> result == summary["count_html_characters" := CountHtmlLine(settings.countHtmlCharacters)]
    ensures settings.maxlength == 0 && !settings.useFieldMaxlength ==> result == summary
  {
    result := summary;
    if settings.maxlength != 0 || settings.useFieldMaxlength {
      result := result["count_html_characters" := CountHtmlLine(settings.countHtmlCharacters)];
    }
  }
}

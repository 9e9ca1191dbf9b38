/**
 * The string textarea widget with a counter: its defaults, its summary, the
 * counter wiring of `formElement` (only when a maximum is set) and its byte
 * length rule (`LengthValidation.ValidateElement`).
 */
module StringTextareaWidget {
  import opened Options
  import opened PhpText
  import opened Widget

  datatype TextareaSettings = TextareaSettings(maxlength: int, counterPosition: string)

  /** A widget setting value as stored in configuration. */
  datatype SettingValue = IntSetting(i: int) | StringSetting(s: string) | BoolSetting(b: bool)

  /** `defaultSettings`: its two entries win over the parent widget's (PHP array union). */
  function DefaultSettings(parent: map<string, SettingValue>): (r: map<string, SettingValue>)
    ensures r.Keys == parent.Keys + {"maxlength", "counter_position"}
    ensures r["maxlength"] == IntSetting(0)
    ensures r["counter_position"] == StringSetting("after")
    ensures forall k :: k in parent && k != "maxlength" && k != "counter_position" ==> r[k] == parent[k]
  {
    parent + map["maxlength" := IntSetting(0), "counter_position" := StringSetting("after")]
  }

  const WidgetSegment: string := "string-textarea-with-counter"
  const ValidateElementCallback: string := "validateElement"

  /** The per-element key `entityType-id-definitionId-string-textarea-with-counter-delta`. */
  function TextareaKey(e: Entity, definitionId: string, delta: nat): string
  {
    Implode("-", [e.entityTypeId, EntityIdSegment(e), EncodeDefinitionId(definitionId), WidgetSegment, NatToString(delta)])
  }

  /** One entry of `drupalSettings.textfieldCounter` as this widget writes it. */
  datatype TextareaCounterSettings = TextareaCounterSettings(keys: seq<string>, maxlength: int, counterPosition: string)

  /** The parts of the render array the widget writes. */
  datatype TextareaElement = TextareaElement(
    valueClasses: seq<string>,           // value.#attributes.class
    valueValidators: seq<string>,        // value.#element_validate
    valueMaxlength: Option<int>,         // value.#textfield-maxlength
    libraries: seq<string>,              // #attached.library
    counterSettings: map<string, TextareaCounterSettings>)

  /** `settingsSummary`: "Disabled" for a zero maximum, and the position line only otherwise. */
  method SettingsSummary(parent: seq<SummaryLine>, settings: TextareaSettings) returns (summary: seq<SummaryLine>)
    ensures |summary| == |parent| + (if settings.maxlength != 0 then 2 else 1)
    ensures summary[..|parent|] == parent
    ensures summary[|parent|] == MaximumLine(if settings.maxlength != 0 then Some(settings.maxlength) else None, false)
    ensures settings.maxlength != 0 ==> summary[|parent| + 1] == PositionLine(TranslateValue(settings.counterPosition))
  {
    summary := parent;
    var maxlength := settings.maxlength;
    summary := summary + [MaximumLine(if maxlength != 0 then Some(maxlength) else None, false)];
    if maxlength != 0 {
      summary := summary + [PositionLine(TranslateValue(settings.counterPosition))];
    }
  }

  /**
   * `formElement` after the parent's element is built: with a nonzero
   * maximum the value element gets its key class, the counter class, the
   * byte-length validator and its maximum, and the settings entry indexed
   * by the encoded definition id gets the key appended; with a zero maximum
   * nothing changes.
   */
  method FormElement(element: TextareaElement, settings: TextareaSettings, entity: Entity,
                     definitionId: string, delta: nat) returns (result: TextareaElement)
    ensures settings.maxlength == 0 ==> result == element
    ensures settings.maxlength != 0 ==>
              var key := TextareaKey(entity, definitionId, delta);
              var index := EncodeDefinitionId(definitionId);
              && result.valueClasses == element.valueClasses + [key, CounterElementClass]
              && result.valueValidators == element.valueValidators + [ValidateElementCallback]
              && result.valueMaxlength == Some(settings.maxlength)
              && result.libraries == element.libraries + [CounterLibrary]
              && result.counterSettings.Keys == element.counterSettings.Keys + {index}
              && (forall i :: i in element.counterSettings && i != index ==> result.counterSettings[i] == element.counterSettings[i])
              && result.counterSettings[index] == TextareaCounterSettings(
                   ArrayEntry(element.counterSettings, index, TextareaCounterSettings([], 0, "")).keys + [key], settings.maxlength, settings.counterPosition)
  {
    result := element;
    if settings.maxlength != 0 {
      var keys := [entity.entityTypeId];
      keys := keys + [EntityIdSegment(entity)];
      keys := keys + [EncodeDefinitionId(definitionId)];
      keys := keys + [WidgetSegment];
      keys := keys + [NatToString(delta)];
      assert keys == [entity.entityTypeId, EntityIdSegment(entity), EncodeDefinitionId(definitionId), WidgetSegment, NatToString(delta)];
      var key := Implode("-", keys);
      assert key == TextareaKey(entity, definitionId, delta);
      result := result.(valueClasses := result.valueClasses + [key]);
      result := result.(valueClasses := result.valueClasses + [CounterElementClass]);
      result := result.(valueValidators := result.valueValidators + [ValidateElementCallback]);
      result := result.(valueMaxlength := Some(settings.maxlength));
      result := result.(libraries := result.libraries + [CounterLibrary]);
      var fieldDefinitionId := EncodeDefinitionId(definitionId);
      var entry := ArrayEntry(result.counterSettings, fieldDefinitionId, TextareaCounterSettings([], 0, ""));
      entry := entry.(keys := entry.keys + [key]);
      entry := entry.(maxlength := settings.maxlength);
      entry := entry.(counterPosition := settings.counterPosition);
      result := result.(counterSettings := result.counterSettings[fieldDefinitionId := entry]);
    }
  }

  /** Two deltas of one textarea field never share a key. */
  lemma TextareaKeysDifferByDelta(e: Entity, definitionId: string, m: nat, n: nat)
    requires m != n
    ensures TextareaKey(e, definitionId, m) != TextareaKey(e, definitionId, n)
  {
    var parts := [e.entityTypeId, EntityIdSegment(e), EncodeDefinitionId(definitionId), WidgetSegment];
    var prefix := Implode("-", parts) + "-";
    ImplodeSnoc("-", parts, NatToString(m));
    ImplodeSnoc("-", parts, NatToString(n));
    assert parts + [NatToString(m)] == [e.entityTypeId, EntityIdSegment(e), EncodeDefinitionId(definitionId), WidgetSegment, NatToString(m)];
    assert parts + [NatToString(n)] == [e.entityTypeId, EntityIdSegment(e), EncodeDefinitionId(definitionId), WidgetSegment, NatToString(n)];
    if TextareaKey(e, definitionId, m) == TextareaKey(e, definitionId, n) {
      assert (prefix + NatToString(m))[|prefix|..] == NatToString(m);
      assert (prefix + NatToString(n))[|prefix|..] == NatToString(n);
      NatToStringInjective(m, n);
    }
  }
}

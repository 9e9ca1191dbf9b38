/** Values the PHP widgets share: the entity being edited and the summary lines. */
module Widget {
  import opened Options
  import opened PhpText

  /** The entity a field widget is built for. `id` is NULL for an entity not yet saved. */
  datatype Entity = Entity(entityTypeId: string, id: Option<string>, bundle: string)

  /** PHP truthiness of a string: "" and "0" are false. */
  predicate Truthy(s: string)
  {
    s != "" && s != "0"
  }

  /** `$entity->id() ? $entity->id() : 0`, as text. */
  function EntityIdSegment(e: Entity): (seg: string)
    ensures seg == "0" || (e.id.Some? && seg == e.id.value)
    ensures e.id.Some? && Truthy(e.id.value) <==> seg != "0"
  {
    if e.id.Some? && Truthy(e.id.value) then e.id.value else "0"
  }

  /** A Drupal machine name: no dash and no dot. */
  predicate MachineName(s: string)
  {
    '-' !in s && '.' !in s
  }

  /** `str_replace('.', '--', $id)`: a definition id made safe for a CSS class. */
  function EncodeDefinitionId(id: string): (r: string)
    ensures '.' !in r
  {
    ReplaceChar(id, '.', "--")
  }

  /** The encoding loses nothing when the id has no dash of its own. */
  lemma EncodeDefinitionIdDecodes(id: string)
    requires '-' !in id
    ensures CollapseDoubleDash(EncodeDefinitionId(id)) == id
  {
    DotEncodingRoundTrip(id);
  }

  /** The encoded id carries two dashes per dot, so an even number when the id has none. */
  lemma EncodedDefinitionIdDashes(id: string)
    requires '-' !in id
    ensures CharCount('-', EncodeDefinitionId(id)) == 2 * CharCount('.', id)
  {
  }

  const CounterElementClass: string := "textfield-counter-element"
  const CounterLibrary: string := "textfield_counter/counter"

  /** The two translatable counter positions. */
  datatype PositionLabel = BeforeLabel | AfterLabel

  /** `translateValue`: only "before" and "after" have a label; any other key reads as NULL. */
  function TranslateValue(v: string): (r: Option<PositionLabel>)
    ensures r.Some? <==> v == "before" || v == "after"
    ensures r == Some(BeforeLabel) <==> v == "before"
  {
    if v == "before" then Some(BeforeLabel)
    else if v == "after" then Some(AfterLabel)
    else None
  }

  /** One settings-summary line, before translation. */
  datatype SummaryLine =
    | MaximumLine(count: Option<int>, fieldDefault: bool)   // count None reads "Disabled"
    | PositionLine(position: Option<PositionLabel>)
    | PreventSubmitLine(prevent: bool)
    | CountHtmlLine(countHtml: bool)
}

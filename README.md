# textfield_counter, modelled in Dafny

This project models the character-count logic of the Drupal `textfield_counter`
module. That logic lives on both sides of the form:

- **Server.** A widget trait attaches a counter to each text element. It builds
  the element's CSS key, its `data-field-definition-id` attribute and its
  `drupalSettings.textfieldCounter` entry. On submit, it validates the length of
  the value: code points, minus one per `PHP_EOL`, optionally after
  `strip_tags`. The older string-textarea widget has its own key scheme and its
  own byte-length validator.
- **Client.** Two scripts exist: the newer `js/textfield_counter.js` and the
  older `js/textfield_counter-textarea.js`. Each one binds a counter showing
  `maxlength - length` to every keyed element, except that the newer script
  skips an entry whose maximum is 0. Each one keeps the wrapper's
  `textcount_warning` / `textcount_over` classes in step on every keyup. Each one
  guards the form's submit: the newer script blocks only for entries that ask
  for it, the older one on any over-limit element.

Modules:

- `PhpText`: the PHP string functions the code uses (`explode`, `implode`,
  `str_replace` of one character, `strlen` as UTF-8 bytes) and the counting
  facts about them.
- `LengthValidation`: the two server validators.
- `Widget`: what the widgets share (entity id segment, definition-id encoding,
  `translateValue`, summary lines).
- `CounterWidgetTrait`: `fieldFormElement` and the summary helpers. PHP arrays
  are values, so a helper that takes `&$element` or `&$summary` is a method
  taking the array and returning the updated one.
- `StringTextareaWidget`: `defaultSettings`, `settingsSummary` and
  `formElement`.
- `Dom`: the page.
  - Class `Dom.Page` holds the element values, the wrapper classes, the
    `jQuery.once` markers, and one counter record per bound element.
  - The record holds the closure state, including the displayed `remaining`.
  - `Dom.Page`'s methods are proved against the specification functions
    `Bind`, `BindAll`, `BindKeys` and `KeyupState`.
  - `checkClasses` is identical in both scripts and is defined here once.
  - The two binding loops differ: whether a zero maximum is skipped, how the
    value is measured, and the shape of the settings. They share one loop,
    `Bind`, and a `BindSpec` carries the differences.
- `CounterScript` and `TextareaScript`: the two scripts' watchers and submit
  handlers.
- `Consistency`: how server and client fit together.
  - The validated length of what the browser submits equals the count the
    client shows.
  - The settings index the trait writes is compared by the newer submit
    handler with the element's definition id.

Inputs that are not part of this model are parameters:

- `strip_tags` is `stripTags: string -> string`;
- jQuery's `$("<div/>").html(v).text()` is `textOf`;
- `PHP_EOL` is `eol`.

A Dafny `char` is a Unicode scalar value, so `|s|` is `Unicode::strlen`.

## Model

| member | source | states |
|---|---|---|
| PhpText.ExplodeCountsOccurrences | src/Plugin/Field/FieldWidget/TextFieldCounterWidgetTrait.php:282-283 | `explode` returns one more part than there are non-overlapping occurrences of the separator |
| PhpText.Explode | src/Plugin/Field/FieldWidget/TextFieldCounterWidgetTrait.php:282 | `explode(sep, s)`: the pieces between non-overlapping separators, scanned from the left; never empty |
| PhpText.Implode | src/Plugin/Field/FieldWidget/TextFieldCounterWidgetTrait.php:249 | `implode(sep, parts)`: the parts joined by the separator |
| PhpText.ReplaceChar | src/Plugin/Field/FieldWidget/TextFieldCounterWidgetTrait.php:240 | `str_replace` of one character by a string, every occurrence, left to right |
| PhpText.ImplodeExplode | src/Plugin/Field/FieldWidget/TextFieldCounterWidgetTrait.php:282 | joining the parts `explode` returns (line 282) with the separator, as `implode` does at line 249, gives back the original string |
| PhpText.ImplodeSnoc | src/Plugin/Field/FieldWidget/TextFieldCounterWidgetTrait.php:249 | imploding a non-empty list with one more part appends the separator and that part |
| PhpText.ReplaceCharLength | src/Plugin/Field/FieldWidget/TextFieldCounterWidgetTrait.php:240 | replacing each occurrence of one character by a string adds `|r| - 1` characters per occurrence |
| PhpText.DotEncodingRoundTrip | src/Plugin/Field/FieldWidget/TextFieldCounterWidgetTrait.php:240 | for an id with no dash of its own, turning every `.` into `--` is undone by collapsing `--` back to `.` |
| PhpText.NatToStringInjective | src/Plugin/Field/FieldWidget/TextFieldCounterWidgetTrait.php:247-249 | distinct deltas print as distinct decimal strings |
| PhpText.Utf8Length | src/Plugin/Field/FieldWidget/StringTextareaWithCounterWidget.php:116 | byte length is at least the code-point count, with equality exactly for all-ASCII text |
| LengthValidation.NewlineCount | src/Plugin/Field/FieldWidget/TextFieldCounterWidgetTrait.php:282-283 | `count(explode(PHP_EOL, v)) - 1` is the number of non-overlapping `PHP_EOL` occurrences in `v` |
| LengthValidation.ValidatedLength | src/Plugin/Field/FieldWidget/TextFieldCounterWidgetTrait.php:281-290 | the length is the code points of the value, stripped or as is, minus the `PHP_EOL` occurrences in the unstripped value; with markup counted it lies between 0 and the value's length |
| LengthValidation.ValidateFieldFormElement | src/Plugin/Field/FieldWidget/TextFieldCounterWidgetTrait.php:278-300 | an error is set exactly when the validated length is strictly greater than `#textfield-maxlength`; the error carries that length and that maximum |
| LengthValidation.KeyedValueValidatedThroughValueEntry | src/Plugin/Field/FieldWidget/TextFieldCounterWidgetTrait.php:281 | an array value gets the verdict of its `value` entry |
| LengthValidation.Unwrap | src/Plugin/Field/FieldWidget/TextFieldCounterWidgetTrait.php:281 | an array value is read through its `value` entry, a missing one as the empty string; a scalar is itself |
| LengthValidation.BoundaryIsInclusive | src/Plugin/Field/FieldWidget/TextFieldCounterWidgetTrait.php:291 | a length equal to the maximum is accepted; one below it is rejected |
| LengthValidation.LineFeedLength | src/Plugin/Field/FieldWidget/TextFieldCounterWidgetTrait.php:282-286 | with `PHP_EOL` = LF and markup counted, the length is the code points minus the line feeds |
| LengthValidation.LoneLineFeedCountsZero | src/Plugin/Field/FieldWidget/TextFieldCounterWidgetTrait.php:282-286 | with markup counted and `PHP_EOL` = LF, inserting a lone LF leaves the validated length unchanged |
| LengthValidation.CrLfCountsOne | src/Plugin/Field/FieldWidget/TextFieldCounterWidgetTrait.php:282-286 | with markup counted and `PHP_EOL` = LF, inserting a CR LF pair adds exactly one to the validated length |
| LengthValidation.CrLfExample | src/Plugin/Field/FieldWidget/TextFieldCounterWidgetTrait.php:282-286 | "a" CR LF "b" validates as 3 under either end-of-line convention |
| LengthValidation.StrippingNoMarkupChangesNothing | src/Plugin/Field/FieldWidget/TextFieldCounterWidgetTrait.php:285-290 | when `strip_tags` leaves the value unchanged, both modes give the same length |
| LengthValidation.StrippedLengthCanBeNegative | src/Plugin/Field/FieldWidget/TextFieldCounterWidgetTrait.php:282-290 | newlines are counted before stripping, so markup that hides a newline gives a negative length |
| LengthValidation.ValidateElement | src/Plugin/Field/FieldWidget/StringTextareaWithCounterWidget.php:112-120 | the textarea validator sets an error exactly when the UTF-8 byte length exceeds the maximum, and reports the byte length |
| LengthValidation.ByteRuleRefusesWhatCodePointRuleRefuses | src/Plugin/Field/FieldWidget/StringTextareaWithCounterWidget.php:116 | every value the trait's rule (markup counted) rejects is also rejected by the byte rule |
| LengthValidation.RulesAgreeOnPlainAscii | src/Plugin/Field/FieldWidget/StringTextareaWithCounterWidget.php:116 | on ASCII text with no `PHP_EOL`, the byte rule and the trait's rule give the same length |
| LengthValidation.MultibyteCountsMoreThanOnce | src/Plugin/Field/FieldWidget/StringTextareaWithCounterWidget.php:116-118 | "é" under a maximum of 1 passes the trait's rule but fails the byte rule with length 2 |
| LengthValidation.LineFeedCountedOnlyByByteRule | src/Plugin/Field/FieldWidget/StringTextareaWithCounterWidget.php:116 | "a" LF "b" under a maximum of 2 passes the trait's rule but fails the byte rule with length 3 |
| Widget.EntityIdSegment | src/Plugin/Field/FieldWidget/TextFieldCounterWidgetTrait.php:238 | the entity id when it is truthy, otherwise "0" |
| Widget.EncodeDefinitionId | src/Plugin/Field/FieldWidget/TextFieldCounterWidgetTrait.php:240 | the encoded definition id has no dot |
| Widget.EncodeDefinitionIdDecodes | src/Plugin/Field/FieldWidget/TextFieldCounterWidgetTrait.php:240 | for an id with no dash, the encoding loses nothing |
| Widget.EncodedDefinitionIdDashes | src/Plugin/Field/FieldWidget/TextFieldCounterWidgetTrait.php:240 | for an id with no dash, the encoding has two dashes per dot |
| Widget.TranslateValue | src/Plugin/Field/FieldWidget/TextFieldCounterWidgetTrait.php:312-319 | only "before" and "after" have a label; "before" maps to the Before label |
| CounterWidgetTrait.AttachCounter | src/Plugin/Field/FieldWidget/TextFieldCounterWidgetTrait.php:251-264 | the element gets its key class, the counter class, its definition-id attribute and the library. The entry at the index gets the key at `delta`, the effective maximum, the position and the count-HTML flag; its `preventSubmit` is set only when `js_prevent_submit` is on, otherwise it keeps its prior value. Every other entry is kept |
| CounterWidgetTrait.FieldFormElement | src/Plugin/Field/FieldWidget/TextFieldCounterWidgetTrait.php:233-265 | `fieldFormElement` as written: the effective maximum is the field's when `use_field_maxlength` is set, otherwise the widget's; the settings entry is indexed by the element key |
| CounterWidgetTrait.FieldFormElementByDefinition | src/Plugin/Field/FieldWidget/TextFieldCounterWidgetTrait.php:253-256 | the same element, with the settings entry indexed by the definition id that the element's attribute carries |
| CounterWidgetTrait.ElementKeyShape | src/Plugin/Field/FieldWidget/TextFieldCounterWidgetTrait.php:237-249 | the key is entity type, id or 0, encoded definition id and delta, joined by `-` |
| CounterWidgetTrait.EffectiveMaxlength | src/Plugin/Field/FieldWidget/TextFieldCounterWidgetTrait.php:234 | the field's `max_length` when `use_field_maxlength` is set, otherwise the widget's `maxlength` |
| CounterWidgetTrait.DefinitionId | src/Plugin/Field/FieldWidget/TextFieldCounterWidgetTrait.php:239-244 | a config field's id with each `.` as `--`; a base field's `entityType--bundle--name` |
| CounterWidgetTrait.ElementKey | src/Plugin/Field/FieldWidget/TextFieldCounterWidgetTrait.php:236-249 | entity type, entity id or 0, definition id and delta, joined by `-` |
| CounterWidgetTrait.ElementKeysDifferByDelta | src/Plugin/Field/FieldWidget/TextFieldCounterWidgetTrait.php:237-249 | two deltas of one field never share a key |
| CounterWidgetTrait.ElementKeyHasNoDot | src/Plugin/Field/FieldWidget/TextFieldCounterWidgetTrait.php:237-251 | for machine-named parts, the key has no dot, so `"." + key` selects that class |
| CounterWidgetTrait.DefinitionIdDashesEven | src/Plugin/Field/FieldWidget/TextFieldCounterWidgetTrait.php:239-244 | for machine-named parts, a definition id has an even number of dashes |
| CounterWidgetTrait.ElementKeyDashesOdd | src/Plugin/Field/FieldWidget/TextFieldCounterWidgetTrait.php:237-249 | for machine-named parts, an element key has an odd number of dashes |
| CounterWidgetTrait.ElementKeyIsNeverADefinitionId | src/Plugin/Field/FieldWidget/TextFieldCounterWidgetTrait.php:249-256 | for machine-named parts, no element key equals any definition id |
| CounterWidgetTrait.AddMaxlengthSummary | src/Plugin/Field/FieldWidget/TextFieldCounterWidgetTrait.php:173-183 | sets only the `maxlength` line. It is marked field default exactly when `use_field_maxlength` is set, and reads "Disabled" exactly when the field default is not used and the widget maximum is 0; otherwise it shows the effective maximum |
| CounterWidgetTrait.AddPositionSummary | src/Plugin/Field/FieldWidget/TextFieldCounterWidgetTrait.php:191-195 | adds the translated position line exactly when a maximum is in force, otherwise leaves the summary unchanged |
| CounterWidgetTrait.AddJsSubmitPreventSummary | src/Plugin/Field/FieldWidget/TextFieldCounterWidgetTrait.php:203-207 | adds the prevent-submit line exactly when the widget maximum is nonzero and the field default is not used |
| CounterWidgetTrait.AddCountHtmlPreventSummary | src/Plugin/Field/FieldWidget/TextFieldCounterWidgetTrait.php:215-219 | adds the count-HTML line exactly when a maximum is in force |
| StringTextareaWidget.DefaultSettings | src/Plugin/Field/FieldWidget/StringTextareaWithCounterWidget.php:26-32 | the defaults are maxlength 0 and position "after", overriding the parent's, and every other parent setting is kept |
| StringTextareaWidget.SettingsSummary | src/Plugin/Field/FieldWidget/StringTextareaWithCounterWidget.php:65-77 | keeps the parent's lines and appends the maximum line, which reads "Disabled" for 0; the position line follows only for a nonzero maximum |
| StringTextareaWidget.FormElement | src/Plugin/Field/FieldWidget/StringTextareaWithCounterWidget.php:82-110 | a zero maximum leaves the element unchanged. Otherwise the value gets its key class, the counter class, the byte validator and its maximum; the entry indexed by the encoded definition id gets the key appended, with the maximum and position |
| StringTextareaWidget.TextareaKeysDifferByDelta | src/Plugin/Field/FieldWidget/StringTextareaWithCounterWidget.php:89-95 | two deltas of one textarea field never share a key |
| StringTextareaWidget.TextareaKey | src/Plugin/Field/FieldWidget/StringTextareaWithCounterWidget.php:89-95 | entity type, entity id or 0, encoded definition id, `string-textarea-with-counter` and delta, joined by `-` |
| Dom.ClassesAfter | js/textfield_counter.js:21-33 | warning exactly for remaining in [0, 5], over exactly for remaining below 0, never both; other classes are untouched |
| Dom.ThresholdFor | js/textfield_counter.js:21-33 | the tier `checkClasses` picks: over below 0, warning from 0 to 5, normal above 5 |
| Dom.Bind | js/textfield_counter.js:40-62 | one element reached by the binding loop: skipped when marked; otherwise marked and, unless a guarded zero maximum stops it, given a counter showing `maxlength - length` and its wrapper the matching tier |
| Dom.KeyupState | js/textfield_counter.js:64-75 | the keyup handler of a bound element: the remaining count and the wrapper tier recomputed from the current value; an element without a counter is untouched |
| Dom.ClassesAfterKeepsShownTier | js/textfield_counter.js:21-33 | classes that already show the tier are left as they are |
| Dom.PlacementOf | js/textfield_counter.js:55-60 | the counter goes before the element exactly when `counterPosition === "before"` |
| Dom.Select | js/textfield_counter.js:40 | `$("." + key)` selects exactly the document's elements that carry the class |
| Dom.Page.CheckClasses | js/textfield_counter.js:21-33 | only the element's wrapper changes, to `ClassesAfter` of its classes |
| Dom.Page.BindElement | js/textfield_counter.js:40-76 | a marked element is skipped. Otherwise it is marked and, unless the guard finds a zero maximum, it gets a counter showing `maxlength - length` and its wrapper gets the matching tier |
| Dom.Page.BindSelected | js/textfield_counter.js:40 | binds the selected elements in document order |
| Dom.Page.BindEachKey | js/textfield_counter.js:39-78 | binds the selections of the keys in order |
| Dom.Page.Keyup | js/textfield_counter.js:64-75 | a bound element's displayed remaining and wrapper tier are recomputed from its current value; nothing else changes |
| Dom.BindAllMarks | js/textfield_counter.js:40 | binding changes no value, only adds markers, and marks every selected element |
| Dom.BindAllIdle | js/textfield_counter.js:40 | a selection whose elements are all marked changes nothing |
| Dom.BindKeysMarks | js/textfield_counter.js:39-40 | after binding the keys, every element they select is marked |
| Dom.BindKeysIdle | js/textfield_counter.js:39-40 | keys whose selections are all marked change nothing |
| Dom.BindKeysIdempotent | js/textfield_counter.js:39-40 | binding the same keys twice is the same as binding them once |
| Dom.GuardedZeroBindsNoCounter | js/textfield_counter.js:43-44 | with the guard and a zero maximum, no counter and no wrapper class is added |
| Dom.GuardedZeroSelectionBindsNoCounter | js/textfield_counter.js:43-44 | the same for one selection |
| Dom.BindKeepsSynced | js/textfield_counter.js:52-62 | binding one element leaves every counter that was in step in step; binding an unmarked element that is not skipped gives it a counter showing `maxlength - length` of its value with the matching tier on its wrapper; no counter is removed |
| Dom.BindAllKeepsSynced | js/textfield_counter.js:40-62 | binding a selection leaves in step what was in step, and every element of the selection that was unmarked and not skipped ends with a counter in step with its value |
| Dom.BindKeysKeepsSynced | js/textfield_counter.js:39-62 | binding a list of keys leaves in step what was in step, and every counter it creates is in step |
| Dom.InStepWrapperIsOverIffTooLong | js/textfield_counter.js:21-33 | the wrapper of an element whose counter is in step carries the over class exactly when the value is longer than the maximum |
| Dom.KeyupSyncs | js/textfield_counter.js:64-75 | after a keyup, the element's counter is in step with its value, and every other element is in step exactly when it was before |
| Dom.KeyupOnSyncedIsNoOp | js/textfield_counter.js:64-75 | a keyup on an element already in step changes nothing |
| Dom.KeyupIdempotent | js/textfield_counter.js:64-75 | repeated keyups with an unchanged value leave remaining and the classes as the first left them |
| Dom.OverPrefix | js/textfield_counter.js:85 | the over-limit nodes among the first `n`, each exactly once, in document order |
| Dom.OverNodes | js/textfield_counter.js:85 | `find(".textcount_over")` lists exactly the over-limit wrappers, in document order |
| CounterScript.SpecOf | js/textfield_counter.js:43-60 | raw length exactly when markup counts, otherwise the parsed text; zero maximum guarded; before exactly for "before" |
| CounterScript.TextWatcher | js/textfield_counter.js:35-80 | the page after `textWatcher` is the entries' key lists bound in order |
| CounterScript.Watch | js/textfield_counter.js:35-40 | `textWatcher`: each entry's key list bound in settings order with that entry's binding settings |
| CounterScript.WatchMarks | js/textfield_counter.js:35-80 | afterwards, every element named by an entry carries the watcher marker, and no value has changed |
| CounterScript.WatchIdle | js/textfield_counter.js:40 | when every named element is already marked, `textWatcher` changes nothing |
| CounterScript.WatchIdempotent | js/textfield_counter.js:35-80 | attaching twice is the same as attaching once |
| CounterScript.WatchKeepsSynced | js/textfield_counter.js:35-80 | after attach, every counter that was in step stays in step, and every counter attach creates shows `maxlength - length` and its wrapper the matching tier |
| CounterScript.ZeroMaximumBindsNoCounter | js/textfield_counter.js:43-44 | an entry with maximum 0 inserts no counter |
| CounterScript.CountOffending | js/textfield_counter.js:87-89 | the number of offending entries among the first `j` is at most `j`, and positive exactly when one of them offends |
| CounterScript.Offending | js/textfield_counter.js:85-89 | a pair blocks submission when the wrapper is over the limit, the entry has `preventSubmit`, and the entry's index equals the definition id on the wrapper's first counter element |
| CounterScript.ScrollsForNode | js/textfield_counter.js:87-95 | for one over-limit wrapper, one scroll to it per entry that prevents submission and whose index equals the wrapper's definition id (exactly `CountOffending` copies); at least one exactly when such an entry exists |
| CounterScript.ScrollListStep | js/textfield_counter.js:86-95 | visiting one more over-limit wrapper appends that wrapper's scrolls to those of the wrappers before it |
| CounterScript.ScrollListMembers | js/textfield_counter.js:86-95 | a wrapper is scrolled to exactly when it is visited and some entry offends at it |
| CounterScript.ScrollListSorted | js/textfield_counter.js:86-95 | visiting wrappers in increasing document order scrolls to them in non-decreasing order |
| CounterScript.AppendCopiesSorted | js/textfield_counter.js:86-95 | appending copies of a wrapper that comes after every wrapper already scrolled to keeps the scrolls in order |
| CounterScript.OffendedByIffSomeEntry | js/textfield_counter.js:87-89 | one of the first `j` entries offends at a wrapper exactly when some entry below `j` prevents submission and has the wrapper's definition id as its index, with the wrapper over the limit |
| CounterScript.SomeOffendingPair | js/textfield_counter.js:86-89 | some wrapper offends exactly when some pair of an over-limit wrapper and an entry is offending |
| CounterScript.ScrollsCoverOffenders | js/textfield_counter.js:86-95 | visiting the over-limit wrappers in document order scrolls to every offending wrapper and only to those, in order; there is a scroll exactly when some wrapper offends, which is exactly when some (over-limit wrapper, entry) pair is offending |
| CounterScript.SubmitHandler | js/textfield_counter.js:84-96 | submission is prevented exactly when some over-limit wrapper's first counter element has a definition id equal to the index of an entry with `preventSubmit`. The scrolls go to exactly those wrappers, in document order, each once per such entry |
| TextareaScript.TextareaSpec | js/textfield_counter-textarea.js:44-55 | raw length, no zero guard, before exactly for "before" |
| TextareaScript.TextareaWatcher | js/textfield_counter-textarea.js:36-69 | the page after `textareaWatcher` is the single entry's keys bound in order |
| TextareaScript.ZeroMaximumStillBinds | js/textfield_counter-textarea.js:44-46 | with maximum 0, an unmarked element still gets a counter, showing minus its length |
| TextareaScript.TextareaWatcherIdempotent | js/textfield_counter-textarea.js:40 | attaching twice is the same as attaching once |
| TextareaScript.FirstOver | js/textfield_counter-textarea.js:77 | the first over-limit node in document order, or none exactly when no node is over the limit |
| TextareaScript.FirstOverIsFirstOfOverNodes | js/textfield_counter-textarea.js:77 | `:first` is the head of the list `find(".textcount_over")` returns |
| TextareaScript.SubmitGate | js/textfield_counter-textarea.js:75-85 | blocks exactly when some node is over the limit, whatever the settings say, and scrolls to the first one |
| Consistency.CrLfOccurrencesInSubmitted | src/Plugin/Field/FieldWidget/TextFieldCounterWidgetTrait.php:282-283 | in the CR LF form the browser submits, each line break is one CR LF pair |
| Consistency.SubmittedText | src/Plugin/Field/FieldWidget/TextFieldCounterWidgetTrait.php:280 | the value the validator reads for textarea content: every LF the browser holds submitted as CR LF |
| Consistency.ServerMatchesClientRawLength | src/Plugin/Field/FieldWidget/TextFieldCounterWidgetTrait.php:282-286 | with markup counted, the server's validated length of the submitted text equals the client's raw `.length`, for `PHP_EOL` LF or CR LF |
| Consistency.ClientOverIffServerRejects | src/Plugin/Field/FieldWidget/TextFieldCounterWidgetTrait.php:291 | with markup counted, the client shows over exactly when the server rejects |
| Consistency.TextareaClientAllowsWhatServerRejects | src/Plugin/Field/FieldWidget/StringTextareaWithCounterWidget.php:116 | a pairing the widgets never set up, for comparison: under the older script, "a" LF "b" with maximum 3 would show a warning, not an over, yet the textarea validator rejects it with 4 bytes |
| Consistency.TextareaClientEntry | src/Plugin/Field/FieldWidget/StringTextareaWithCounterWidget.php:102-106 | the textarea widget's entry as the newer script reads it: its keys, maximum and position, with markup not counted and submission never prevented, because neither setting is written |
| Consistency.TextareaEntryAllowsWhatServerRejects | src/Plugin/Field/FieldWidget/StringTextareaWithCounterWidget.php:102-116 | in the pairing that does occur, markup-free "a" LF "b" with maximum 3 shows a warning and the newer gate never blocks for the entry, yet the textarea validator rejects the 4 bytes it receives |
| Consistency.KeysUpTo | src/Plugin/Field/FieldWidget/TextFieldCounterWidgetTrait.php:256 | the `key` object as iterated: every key of a delta below the bound is listed, and nothing else |
| Consistency.KeysUpToAscending | src/Plugin/Field/FieldWidget/TextFieldCounterWidgetTrait.php:256 | the key of a smaller delta is listed before the key of a larger one, so the list is in ascending delta order |
| Consistency.ClientSettings | js/textfield_counter.js:87 | the browser reads, for each index of the iteration order in turn, that index with the server entry stored under it |
| Consistency.ClientSettingsEachEntryOnce | js/textfield_counter.js:87 | when the iteration order lists every server index exactly once, the browser sees every server entry once, under its own index |
| Consistency.ClientGateIsServerLookup | js/textfield_counter.js:89 | the newer gate blocks at a wrapper exactly when the wrapper is over and the server entry stored under its definition id prevents submission |
| Consistency.AsWrittenGateNeverBlocks | src/Plugin/Field/FieldWidget/TextFieldCounterWidgetTrait.php:253-256 | when entries are indexed by element keys and wrappers carry definition ids (machine-named parts), no wrapper ever blocks submission |
| Consistency.CorrectedGateBlocksIffPreventSubmit | js/textfield_counter.js:85-94 | with entries indexed by definition id, an over-limit wrapper blocks exactly when its own field's entry prevents submission |
| Consistency.NewerGateBlocksOnlyWhereOlderDoes | js/textfield_counter-textarea.js:77-84 | whenever the newer gate blocks, the older gate blocks too, at the first over-limit node, which is no later than any wrapper the newer gate scrolls to |

## Left out

- `strip_tags`, `Unicode::strlen` internals, and jQuery's HTML-parse-then-`text()` are abstract functions (`stripTags`, `textOf`). So client and server agreement is proved only for the count-HTML mode.
- JavaScript `.length` counts UTF-16 code units. The model counts code points, so characters outside the Basic Multilingual Plane are not modelled.
- Browser newline behaviour is a hypothesis. The `Consistency` lemmas assume that `val()` holds LF without CR and that the browser submits CR LF; `SubmittedText` writes that out.
- DOM insertion of the counter `div` is left out, beyond its placement. So are the `.remaining_count` text update, `animate` scrolling and jQuery event registration. A counter is a record in `Dom.Page.counters`; a scroll is an index in `SubmitHandler`'s `scrolls`.
- Each element's `.parent()` is its own wrapper, indexed by the element's id. Two elements sharing one parent are not modelled.
- One counter record is kept per element. If both scripts were active on the same element, the model would keep only the later binding's record, where the page would hold two closures.
- Both files register `Drupal.behaviors.textfieldCounterTextarea`, so only one of them is modelled as active on a page.
- Nothing in the PHP here fills `drupalSettings.textfieldCounterTextarea`. `TextareaScriptSettings` is therefore a free input.
- An undefined maximum in the older script (which gives `NaN`) is not modelled, and neither is jQuery `.data()`'s conversion of numeric-looking attributes.
- `setError` on the form state is left out. Each validator returns a `Verdict` instead.
- `validateFieldFormElement` has an unused `$maxlength` parameter. The bound it compares against is `#textfield-maxlength`, which is the `maxlength` parameter of `LengthValidation.ValidateFieldFormElement`.
- CounterWidgetTrait.FieldFormElement: settings values are taken as already integers. The `(int)` cast of a non-numeric setting is not modelled.
- CounterWidgetTrait.FieldFormElement: `method_exists($fieldDefinition, 'id')` is modelled as the choice between `ConfigField` and `BaseField`.
- StringTextareaWidget.FormElement: it calls `id()` on every field definition. So it takes a definition id, and a base-field definition without `id()` is not modelled.
- Consistency.KeysUpTo: the JSON transfer of the delta-indexed `key` array is modelled as ascending delta order below a bound.
- Consistency.AsWrittenGateNeverBlocks: it holds under the hypothesis that entity types, entity ids, bundles and base-field names have no `-` or `.`, and config ids have no `-`. That is Drupal's machine-name convention, used here as a hypothesis.
- Settings forms are left out: `add*SettingsFormElement`, `settingsForm`, `#states` visibility, and `t()` / `formatPlural` translation. Summary lines are the datatype `SummaryLine`, before translation.
- The other widgets (`StringTextfieldWithCounterWidget`, `TextfieldWithCounterWidget`, `TextareaWithCounterWidget`, `TextareaWithSummaryAndCounterWidget`) are left out. They only copy settings and join keys, as the two modelled widgets do.
- Asynchronous rich-text-editor reads have no code here to model.
- Behaviours the code does not have, so the model does not have them either:
  - a negative maximum is not clamped;
  - values are not trimmed;
  - the client does not collapse newlines;
  - the older submit handler ignores `preventSubmit`.

## Findings

| source | as written | input that shows it | evidently intended | confidence | as-written member | corrected member |
|---|---|---|---|---|---|---|
| src/Plugin/Field/FieldWidget/TextFieldCounterWidgetTrait.php:256 | the `textfieldCounter` entry is indexed by the element key `$key`, while `data-field-definition-id` (line 253) holds the bare `$field_definition_id`; the newer submit handler (js/textfield_counter.js:89) requires the two to be equal | node 1, field `node.article.body`, delta 0, `js_prevent_submit` on: the entry index is `node-1-node--article--body-0` and the attribute is `node--article--body`, so an over-limit value never blocks submission | index the entry by `$field_definition_id`, as src/Plugin/Field/FieldWidget/TextfieldWithCounterWidget.php:86 does | likely; not executed | CounterWidgetTrait.FieldFormElement, Consistency.AsWrittenGateNeverBlocks | CounterWidgetTrait.FieldFormElementByDefinition, Consistency.CorrectedGateBlocksIffPreventSubmit |

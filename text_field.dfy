/**
 * The value synchronisation of the Compose `TextField` composables: the
 * incoming selection is clamped into the text, the remembered model is
 * replaced only when the incoming value differs, edits are stored and
 * forwarded, and a cursor is drawn only while focused with a collapsed
 * selection.
 */
module TextFields {
  import opened Options

  /** A selection or composition range; a collapsed range is a cursor. */
  datatype TextRange = TextRange(start: int, end: int) {
    predicate Collapsed() {
      start == end
    }
  }

  /**
   * A UTF-16 code unit. Kotlin strings are sequences of these, and their
   * `length` counts them, so a character outside the Basic Multilingual Plane
   * has length 2.
   */
  type CodeUnit = x: int | 0 <= x < 0x1_0000

  /** Text as Kotlin sees it: a sequence of UTF-16 code units. */
  type Text = seq<CodeUnit>

  /** `androidx.ui.input.TextFieldValue`: text, selection and IME composition. */
  datatype TextFieldValue = TextFieldValue(text: Text, selection: TextRange, composition: Option<TextRange>)

  /** The deprecated `androidx.ui.foundation.TextFieldValue`: text and selection only. */
  datatype LegacyTextFieldValue = LegacyTextFieldValue(text: Text, selection: TextRange)

  /** `TextFieldValue()`: empty text, selection `TextRange.Zero`, no composition. */
  const EmptyValue := TextFieldValue([], TextRange(0, 0), None)

  /** Kotlin's `x.coerceIn(lo, hi)`. */
  function CoerceIn(x: int, lo: int, hi: int): (r: int)
    requires lo <= hi
    ensures lo <= r <= hi
    ensures lo <= x <= hi ==> r == x
    ensures x < lo ==> r == lo
    ensures x > hi ==> r == hi
  {
    if x < lo then lo else if x > hi then hi else x
  }

  /** Both endpoints of `sel` lie in `[0, len]`. */
  predicate InRange(sel: TextRange, len: int) {
    0 <= sel.start <= len && 0 <= sel.end <= len
  }

  /** The selection with each endpoint coerced into `[0, |text|]`. */
  function ClampSelection(sel: TextRange, text: Text): (r: TextRange)
    ensures InRange(r, |text|)
    ensures InRange(sel, |text|) ==> r == sel
    ensures 0 <= sel.start <= |text| ==> r.start == sel.start
    ensures sel.start < 0 ==> r.start == 0
    ensures sel.start > |text| ==> r.start == |text|
    ensures 0 <= sel.end <= |text| ==> r.end == sel.end
    ensures sel.end < 0 ==> r.end == 0
    ensures sel.end > |text| ==> r.end == |text|
  {
    TextRange(CoerceIn(sel.start, 0, |text|), CoerceIn(sel.end, 0, |text|))
  }

  /** Clamping twice is clamping once. */
  lemma ClampIdempotent(sel: TextRange, text: Text)
    ensures ClampSelection(ClampSelection(sel, text), text) == ClampSelection(sel, text)
  {
  }

  /** Clamping keeps the order of the endpoints; a cursor stays a cursor. */
  lemma ClampPreservesOrder(sel: TextRange, text: Text)
    ensures sel.start <= sel.end ==> ClampSelection(sel, text).start <= ClampSelection(sel, text).end
    ensures sel.start >= sel.end ==> ClampSelection(sel, text).start >= ClampSelection(sel, text).end
    ensures sel.Collapsed() ==> ClampSelection(sel, text).Collapsed()
  {
  }

  /**
   * The remembered model after the current `TextField` has been composed
   * with `value`: unchanged when equal to `value`, otherwise `value` with its
   * selection clamped.
   */
  function Synchronized(model: TextFieldValue, value: TextFieldValue): (r: TextFieldValue)
    ensures r.text == value.text && r.composition == value.composition
    ensures InRange(value.selection, |value.text|) ==> r == value
    ensures model != value ==> InRange(r.selection, |r.text|)
    ensures model != value ==> r.selection == ClampSelection(value.selection, value.text)
    ensures model == value ==> r == model
  {
    if model != value then
      TextFieldValue(value.text, ClampSelection(value.selection, value.text), value.composition)
    else
      model
  }

  /** Composing again with the same value changes nothing more. */
  lemma SynchronizedIdempotent(model: TextFieldValue, value: TextFieldValue)
    ensures Synchronized(Synchronized(model, value), value) == Synchronized(model, value)
  {
    ClampIdempotent(value.selection, value.text);
  }

  /**
   * The remembered model after the deprecated `TextField` has been composed
   * with `value`: only text and selection are compared, and a replacement
   * carries no composition.
   */
  function LegacySynchronized(model: TextFieldValue, value: LegacyTextFieldValue): (r: TextFieldValue)
    ensures r.text == value.text
    ensures model.text == value.text && model.selection == value.selection ==> r == model
    ensures model.text != value.text || model.selection != value.selection ==>
              InRange(r.selection, |r.text|) && r.composition == None
    ensures model.text != value.text || model.selection != value.selection ==>
              r.selection == ClampSelection(value.selection, value.text)
    ensures InRange(value.selection, |value.text|) ==> r.selection == value.selection
  {
    if model.text != value.text || model.selection != value.selection then
      TextFieldValue(value.text, ClampSelection(value.selection, value.text), None)
    else
      model
  }

  /** Composing the deprecated field again with the same value changes nothing more. */
  lemma LegacySynchronizedIdempotent(model: TextFieldValue, value: LegacyTextFieldValue)
    ensures LegacySynchronized(LegacySynchronized(model, value), value) == LegacySynchronized(model, value)
  {
    ClampIdempotent(value.selection, value.text);
  }

  /**
   * Feeding the forwarded value back into the deprecated field keeps the
   * stored edit as it is, composition included.
   */
  lemma LegacyFeedbackStable(edit: TextFieldValue)
    ensures LegacySynchronized(edit, LegacyTextFieldValue(edit.text, edit.selection)) == edit
  {
  }

  /** An element of the list the `Saver` stores (`List<Any>`). */
  datatype Saveable = SavedString(s: Text) | SavedInt(i: int)

  /** `Saver.save`: `[text, selection.start, selection.end]`. */
  function Save(v: LegacyTextFieldValue): (r: seq<Saveable>)
    ensures |r| == 3 && r[0].SavedString? && r[1].SavedInt? && r[2].SavedInt?
  {
    [SavedString(v.text), SavedInt(v.selection.start), SavedInt(v.selection.end)]
  }

  /**
   * `Saver.restore`: reads the first three items; a shorter list or an item
   * of the wrong kind is the cast or index failure, here `None`.
   */
  function Restore(items: seq<Saveable>): (r: Option<LegacyTextFieldValue>)
    ensures r.Some? <==> |items| >= 3 && items[0].SavedString? && items[1].SavedInt? && items[2].SavedInt?
  {
    if |items| >= 3 && items[0].SavedString? && items[1].SavedInt? && items[2].SavedInt? then
      Some(LegacyTextFieldValue(items[0].s, TextRange(items[1].i, items[2].i)))
    else
      None
  }

  /** Restoring what was saved gives an equal value. */
  lemma SaverRoundTrip(v: LegacyTextFieldValue)
    ensures Restore(Save(v)) == Some(v)
  {
  }

  /** A restored value saves back to the three items it was read from. */
  lemma RestoreSaveRoundTrip(items: seq<Saveable>, v: LegacyTextFieldValue)
    requires Restore(items) == Some(v)
    ensures Save(v) == items[..3]
  {
  }

  /** A colour, by its packed value; `Transparent` is zero. */
  datatype Color = Color(packed: int)

  const Transparent := Color(0)

  /** What the cursor-colour effect does to the animated colour. */
  datatype CursorAnimation = Blinking(color: Color) | SnappedTo(color: Color)

  /**
   * The cursor-colour effect: blink in the cursor colour (or hold it, when
   * blinking is disabled) while a cursor is needed, else snap to transparent.
   */
  function CursorAnimationFor(cursorNeeded: bool, blinkingEnabled: bool, cursorColor: Color): (r: CursorAnimation)
    ensures !cursorNeeded ==> r == SnappedTo(Transparent)
    ensures cursorNeeded ==> r.color == cursorColor && (r.Blinking? <==> blinkingEnabled)
  {
    if cursorNeeded then
      if blinkingEnabled then Blinking(cursorColor) else SnappedTo(cursorColor)
    else
      SnappedTo(Transparent)
  }

  /** The cursor state remembered by the current `TextField`. */
  class CursorState {
    var focused: bool

    constructor ()
      ensures !focused
    {
      focused := false;
    }
  }

  /** The state remembered by the current `TextField` composable. */
  class TextFieldState {
    var fullModel: TextFieldValue
    const cursorState: CursorState

    constructor ()
      ensures fullModel == EmptyValue
      ensures fresh(cursorState) && !cursorState.focused
    {
      fullModel := EmptyValue;
      cursorState := new CursorState();
    }

    /** `cursorNeeded`: focused and the selection is collapsed. */
    predicate CursorNeeded()
      reads this, cursorState
      ensures CursorNeeded() <==> cursorState.focused && fullModel.selection.start == fullModel.selection.end
      ensures !cursorState.focused ==> !CursorNeeded()
    {
      cursorState.focused && fullModel.selection.Collapsed()
    }

    /**
     * One composition with parameter `value`: synchronise the model, then
     * decide the colour the cursor effect sets (when it runs) and whether the
     * cursor modifier is attached.
     */
    method Compose(value: TextFieldValue, cursorColor: Color, blinkingEnabled: bool)
      returns (animation: CursorAnimation, cursorModifierAttached: bool)
      modifies this
      ensures fullModel == Synchronized(old(fullModel), value)
      ensures cursorModifierAttached == CursorNeeded()
      ensures cursorModifierAttached <==> cursorState.focused && fullModel.selection.Collapsed()
      ensures animation == CursorAnimationFor(CursorNeeded(), blinkingEnabled, cursorColor)
    {
      if fullModel != value {
        var newSelection := TextRange(
          CoerceIn(value.selection.start, 0, |value.text|),
          CoerceIn(value.selection.end, 0, |value.text|));
        fullModel := TextFieldValue(value.text, newSelection, value.composition);
      }
      var cursorNeeded := cursorState.focused && fullModel.selection.Collapsed();
      if cursorNeeded {
        if blinkingEnabled {
          animation := Blinking(cursorColor);
        } else {
          animation := SnappedTo(cursorColor);
        }
      } else {
        animation := SnappedTo(Transparent);
      }
      cursorModifierAttached := cursorState.focused && fullModel.selection.Collapsed();
    }

    /** The edit callback: store the edit and forward it, unconditionally. */
    method OnValueChange(edit: TextFieldValue) returns (forwarded: TextFieldValue)
      modifies this
      ensures fullModel == edit && forwarded == edit
    {
      fullModel := edit;
      forwarded := edit;
    }

    /** The focus callback: record the focus and forward it. */
    method OnFocusChange(focused: bool) returns (forwarded: bool)
      modifies cursorState
      ensures cursorState.focused == focused && forwarded == focused
      ensures fullModel == old(fullModel)
    {
      cursorState.focused := focused;
      forwarded := focused;
    }
  }

  /** The state remembered by the deprecated `TextField` composable. */
  class LegacyTextFieldState {
    var fullModel: TextFieldValue

    constructor ()
      ensures fullModel == EmptyValue
    {
      fullModel := EmptyValue;
    }

    /** One composition with parameter `value`; the result is passed on to the current `TextField`. */
    method Compose(value: LegacyTextFieldValue) returns (passedOn: TextFieldValue)
      modifies this
      ensures fullModel == LegacySynchronized(old(fullModel), value)
      ensures passedOn == fullModel
    {
      if fullModel.text != value.text || fullModel.selection != value.selection {
        var newSelection := TextRange(
          CoerceIn(value.selection.start, 0, |value.text|),
          CoerceIn(value.selection.end, 0, |value.text|));
        fullModel := TextFieldValue(value.text, newSelection, None);
      }
      passedOn := fullModel;
    }

    /**
     * `onValueChangeWrapper`: always store the edit; forward it to the
     * caller only when its text or selection differs from the previous model.
     */
    method OnValueChangeWrapper(edit: TextFieldValue) returns (forwarded: Option<LegacyTextFieldValue>)
      modifies this
      ensures fullModel == edit
      ensures forwarded.None? <==> old(fullModel).text == edit.text && old(fullModel).selection == edit.selection
      ensures forwarded.Some? ==> forwarded.value == LegacyTextFieldValue(edit.text, edit.selection)
    {
      var prevState := fullModel;
      fullModel := edit;
      if prevState.text != edit.text || prevState.selection != edit.selection {
        forwarded := Some(LegacyTextFieldValue(edit.text, edit.selection));
      } else {
        forwarded := None;
      }
    }
  }
}

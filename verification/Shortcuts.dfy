/** Shortcut bindings of `src/shortcuts/bindings.ts`: recording a key event as text and reading the text back. */
module Shortcuts {
  import opened Lists
  import opened Options
  import opened Splitting

  datatype Event = Event(code: string, ctrl: bool, meta: bool, alt: bool, shift: bool)

  datatype Binding = Binding(ctrl: bool, alt: bool, shift: bool, code: string)

  const MODIFIER_CODES := ["ControlLeft", "ControlRight", "ShiftLeft", "ShiftRight",
                          "AltLeft", "AltRight", "MetaLeft", "MetaRight"]

  const MODIFIER_NAMES := ["Ctrl", "Alt", "Shift"]

  /** The command key counts as the control key. */
  function Normal(event: Event): Binding {
    Binding(event.ctrl || event.meta, event.alt, event.shift, event.code)
  }

  // --- Recording ------------------------------------------------------------------------------------------

  predicate Recordable(code: string) {
    code != "" && code !in MODIFIER_CODES
  }

  function Modifiers(b: Binding): seq<string> {
    (if b.ctrl then ["Ctrl"] else []) + (if b.alt then ["Alt"] else []) + (if b.shift then ["Shift"] else [])
  }

  function Canonical(b: Binding): string {
    Joined(Modifiers(b) + [b.code], "+")
  }

  /** The modifiers of `b` and then `last`, joined. */
  method JoinParts(b: Binding, last: string) returns (text: string)
    ensures text == Joined(Modifiers(b) + [last], "+")
  {
    var parts: seq<string> := [];
    if b.ctrl { parts := parts + ["Ctrl"]; }
    if b.alt { parts := parts + ["Alt"]; }
    if b.shift { parts := parts + ["Shift"]; }
    assert parts == Modifiers(b);
    parts := parts + [last];
    text := Joined(parts, "+");
  }

  /** `None` for no event, no code or a bare modifier. */
  method BindingFromEvent(event: Option<Event>) returns (text: Option<string>)
    ensures text == if event.Some? && Recordable(event.value.code) then Some(Canonical(Normal(event.value))) else None
  {
    if event == None || event.value.code == "" || event.value.code in MODIFIER_CODES {
      return None;
    }
    var joined := JoinParts(Normal(event.value), event.value.code);
    text := Some(joined);
  }

  // --- Reading --------------------------------------------------------------------------------------------

  predicate KeyCode(code: string) {
    Recordable(code) && code !in MODIFIER_NAMES
  }

  /** The text of a binding is `None` when it is not a string at all. */
  function Parse(text: Option<string>): (b: Option<Binding>)
    ensures b.Some? ==> KeyCode(b.value.code) && '+' !in b.value.code
  {
    if text == None || text.value == "" then None
    else
      JoiningUndoesSplitting(text.value, '+');
      var parts := Split(text.value, '+');
      var code := parts[|parts| - 1];
      var mods := parts[..|parts| - 1];
      if !KeyCode(code) || !Distinct(mods) || exists m | m in mods :: m !in MODIFIER_NAMES then None
      else Some(Binding("Ctrl" in mods, "Alt" in mods, "Shift" in mods, code))
  }

  predicate Matches(event: Option<Event>, text: Option<string>) {
    var parsed := Parse(text);
    && parsed.Some? && event.Some?
    && event.value.code == parsed.value.code
    && (event.value.ctrl || event.value.meta) == parsed.value.ctrl
    && event.value.alt == parsed.value.alt
    && event.value.shift == parsed.value.shift
  }

  // --- Display --------------------------------------------------------------------------------------------

  const DISPLAY_LABELS := map["Comma" := ",", "ArrowLeft" := "\U{2190}", "ArrowRight" := "\U{2192}",
                              "ArrowUp" := "\U{2191}", "ArrowDown" := "\U{2193}"]

  function DisplayCode(code: string): string {
    if code in DISPLAY_LABELS then DISPLAY_LABELS[code]
    else if "Key" <= code then code[3..]
    else if "Digit" <= code then code[5..]
    else code
  }

  function Display(text: Option<string>): string {
    var parsed := Parse(text);
    if parsed == None then "" else Joined(Modifiers(parsed.value) + [DisplayCode(parsed.value.code)], "+")
  }

  /** Nothing for an invalid binding. */
  method FormatBinding(text: Option<string>) returns (shown: string)
    ensures shown == Display(text)
  {
    var parsed := Parse(text);
    if parsed == None {
      shown := "";
    } else {
      shown := JoinParts(parsed.value, DisplayCode(parsed.value.code));
    }
  }

  // --- What is written ---------------------------------------------------------------------------------------

  /** What is recorded of an event: the command key as the control key, the modifiers in their order, and the code. */
  lemma RecordedText(event: Event)
    ensures Canonical(Normal(event)) ==
      (if event.ctrl || event.meta then "Ctrl+" else "") + (if event.alt then "Alt+" else "")
      + (if event.shift then "Shift+" else "") + event.code
  {
    JoinedModifiers(Normal(event), event.code);
  }

  lemma JoinedModifiers(b: Binding, last: string)
    ensures Joined(Modifiers(b) + [last], "+") ==
      (if b.ctrl then "Ctrl+" else "") + (if b.alt then "Alt+" else "") + (if b.shift then "Shift+" else "") + last
  {
    hide Joined;
    var parts1 := Pressed(b.shift, "Shift") + [last];
    var parts2 := Pressed(b.alt, "Alt") + parts1;
    var text1 := Prefixed(b.shift, "Shift+") + last;
    var text2 := Prefixed(b.alt, "Alt+") + text1;
    LastAlone(last);
    PutInFront(b.shift, "Shift", "Shift+", [last], last);
    PutInFront(b.alt, "Alt", "Alt+", parts1, text1);
    PutInFront(b.ctrl, "Ctrl", "Ctrl+", parts2, text2);
    ModifiersInFront(b, last);
    FourTexts(Prefixed(b.ctrl, "Ctrl+"), Prefixed(b.alt, "Alt+"), Prefixed(b.shift, "Shift+"), last);
  }

  lemma ModifiersInFront(b: Binding, last: string)
    ensures Modifiers(b) + [last] ==
      Pressed(b.ctrl, "Ctrl") + (Pressed(b.alt, "Alt") + (Pressed(b.shift, "Shift") + [last]))
  {
  }

  lemma FourTexts(a: string, b: string, c: string, d: string)
    ensures a + (b + (c + d)) == a + b + c + d
  {
  }

  function Pressed(on: bool, name: string): seq<string> {
    if on then [name] else []
  }

  function Prefixed(on: bool, text: string): string {
    if on then text else ""
  }

  lemma LastAlone(last: string)
    ensures Joined([last], "+") == last
  {
  }

  lemma PutInFront(on: bool, name: string, named: string, parts: seq<string>, text: string)
    requires parts != [] && Joined(parts, "+") == text && named == name + "+"
    ensures Joined(Pressed(on, name) + parts, "+") == Prefixed(on, named) + text
  {
    if on {
      assert ([name] + parts)[1..] == parts;
    } else {
      assert [] + parts == parts && "" + text == text;
    }
  }

  /** Letters and digits are shown without what their codes begin with, arrows as arrows, other keys by their codes. */
  lemma ShownCodes(rest: string)
    ensures DisplayCode("Key" + rest) == rest && DisplayCode("Digit" + rest) == rest
    ensures DisplayCode("ArrowLeft") == "\U{2190}" && DisplayCode("ArrowRight") == "\U{2192}"
    ensures DisplayCode("ArrowUp") == "\U{2191}" && DisplayCode("ArrowDown") == "\U{2193}"
    ensures DisplayCode("Comma") == ","
  {
    var key, digit := "Key" + rest, "Digit" + rest;
    assert key[0] == 'K' && digit[0] == 'D';
    assert "Comma"[0] == 'C' && "ArrowLeft"[0] == 'A' && "ArrowRight"[0] == 'A' && "ArrowUp"[0] == 'A';
    assert "ArrowDown"[0] == 'A';
    assert !("Key" <= digit);
  }

  lemma OtherCodes(code: string)
    requires code !in ["Comma", "ArrowLeft", "ArrowRight", "ArrowUp", "ArrowDown"]
    requires !("Key" <= code) && !("Digit" <= code)
    ensures DisplayCode(code) == code
  {
  }

  /** What is shown of a binding that was recorded. */
  lemma ShownText(b: Binding)
    requires KeyCode(b.code) && '+' !in b.code
    ensures Display(Some(Canonical(b))) ==
      (if b.ctrl then "Ctrl+" else "") + (if b.alt then "Alt+" else "") + (if b.shift then "Shift+" else "")
      + DisplayCode(b.code)
  {
    CanonicalReads(b);
    JoinedModifiers(b, DisplayCode(b.code));
  }

  /** A text is a binding exactly if behind different modifiers, in any order, a key code comes. */
  lemma ParseTells(parts: seq<string>)
    requires parts != [] && AllFree(parts, '+') && parts != [""]
    ensures var mods, code := parts[..|parts| - 1], parts[|parts| - 1];
      Parse(Some(Joined(parts, "+"))) ==
        if Distinct(mods) && (forall m | m in mods :: m in ["Ctrl", "Alt", "Shift"]) && KeyCode(code)
        then Some(Binding("Ctrl" in mods, "Alt" in mods, "Shift" in mods, code)) else None
  {
    hide Joined, Distinct, KeyCode;
    SplittingUndoesJoining(parts, '+');
    assert Split("", '+') == [""];
    assert Joined(parts, "+") != "";
    hide Split;
  }

  // --- What is recorded reads back ------------------------------------------------------------------------

  lemma ModifiersRead(b: Binding)
    ensures Distinct(Modifiers(b)) && forall m | m in Modifiers(b) :: m in MODIFIER_NAMES
    ensures "Ctrl" in Modifiers(b) <==> b.ctrl
    ensures "Alt" in Modifiers(b) <==> b.alt
    ensures "Shift" in Modifiers(b) <==> b.shift
    ensures AllFree(Modifiers(b), '+')
  {
    assert "Ctrl"[0] != "Alt"[0] && "Ctrl"[0] != "Shift"[0] && "Alt"[0] != "Shift"[0];
    forall m | m in MODIFIER_NAMES ensures '+' !in m {
    }
  }

  lemma SplitCanonical(b: Binding)
    requires '+' !in b.code
    ensures Split(Canonical(b), '+') == Modifiers(b) + [b.code]
  {
    ModifiersRead(b);
    SplittingUndoesJoining(Modifiers(b) + [b.code], '+');
  }

  /** Recording and reading give the normalised event, exactly for codes that hold no `+` and are no name of a
      modifier. */
  lemma RecordedReadsBack(event: Event)
    requires Recordable(event.code)
    ensures Parse(Some(Canonical(Normal(event)))) == Some(Normal(event)) <==>
            '+' !in event.code && event.code !in MODIFIER_NAMES
  {
    if '+' !in event.code {
      CanonicalReads(Normal(event));
    }
  }

  /** A key called `Ctrl` is recorded, and the text is no binding. */
  lemma CtrlIsNotReadBack()
    ensures Parse(Some(Canonical(Normal(Event("Ctrl", false, false, true, false))))) == None
    ensures Canonical(Normal(Event("Ctrl", false, false, true, false))) == "Alt+Ctrl"
  {
    var b := Normal(Event("Ctrl", false, false, true, false));
    CanonicalReads(b);
    assert Modifiers(b) + ["Ctrl"] == ["Alt", "Ctrl"] && ["Alt", "Ctrl"][1..] == ["Ctrl"];
    assert "Alt" + "+" + "Ctrl" == "Alt+Ctrl";
  }

  /** Nor is the text of a key whose code holds a `+`. */
  lemma PlusIsNotReadBack()
    ensures Canonical(Normal(Event("Numpad+", false, false, false, false))) == "Numpad+"
    ensures Parse(Some("Numpad+")) == None
  {
    var b := Normal(Event("Numpad+", false, false, false, false));
    assert Modifiers(b) + ["Numpad+"] == ["Numpad+"];
    SplitFirst("Numpad", '+', "");
    assert "Numpad" + ['+'] + "" == "Numpad+";
    assert Split("Numpad+", '+') == ["Numpad", ""];
  }

  lemma CanonicalReads(b: Binding)
    requires Recordable(b.code) && '+' !in b.code
    ensures Parse(Some(Canonical(b))) == if KeyCode(b.code) then Some(b) else None
  {
    hide Joined, Distinct;
    SplitCanonical(b);
    ModifiersRead(b);
    var parts := Modifiers(b) + [b.code];
    assert parts[..|parts| - 1] == Modifiers(b);
    assert Split("", '+') == [""];
  }

  /** An event triggers what another one recorded exactly when both normalise alike. */
  lemma RecordedMatches(event: Event, recorded: Event)
    requires Recordable(recorded.code) && '+' !in recorded.code && recorded.code !in MODIFIER_NAMES
    ensures Matches(Some(event), Some(Canonical(Normal(recorded)))) <==> Normal(event) == Normal(recorded)
  {
    CanonicalReads(Normal(recorded));
  }

  /** Whatever event triggers a valid binding records the same text, which every event matches as it matches
      the binding and which is shown like it. */
  lemma RecordingAgain(text: string, event: Event, other: Option<Event>)
    requires Matches(Some(event), Some(text))
    ensures Recordable(event.code)
    ensures Matches(other, Some(Canonical(Normal(event)))) <==> Matches(other, Some(text))
    ensures Display(Some(Canonical(Normal(event)))) == Display(Some(text))
    ensures other.Some? && Matches(other, Some(text)) ==> Canonical(Normal(other.value)) == Canonical(Normal(event))
  {
    assert Parse(Some(text)) == Some(Normal(event));
    CanonicalReads(Normal(event));
  }

  /** Every valid binding is triggered by some event, and two bindings are triggered by the same events exactly
      when they are recorded alike. */
  lemma SameMatches(a: string, b: string)
    requires Parse(Some(a)).Some? && Parse(Some(b)).Some?
    ensures (forall e :: Matches(Some(e), Some(a)) <==> Matches(Some(e), Some(b))) <==>
            Canonical(Parse(Some(a)).value) == Canonical(Parse(Some(b)).value)
  {
    var p, q := Parse(Some(a)).value, Parse(Some(b)).value;
    CanonicalReads(p);
    CanonicalReads(q);
    var e := Event(p.code, p.ctrl, false, p.alt, p.shift);
    assert Matches(Some(e), Some(a));
    if forall e :: Matches(Some(e), Some(a)) <==> Matches(Some(e), Some(b)) {
      assert Matches(Some(e), Some(b));
    }
  }
}

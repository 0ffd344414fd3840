/** The tracking decision that `onChangeText` takes on every text change:
    start tracking, stop it, or leave it as it is. */
module Tracking {
  import opened JsText
  import opened ComponentProps

  datatype Transition = Start | Stop | Keep

  /** The word-boundary policy: in new-word-only mode the previously typed
      character must trim to nothing (white space, or no character at all);
      anywhere, the trigger always counts. */
  predicate WordBoundary(loc: TriggerLocation, previousChar: string) {
    loc == NewWordOnly ==> TrimsToEmpty(previousChar)
  }

  /** The decision for the new text `val`, read at the cursor `selEnd`: the
      trigger check comes first, then the stop check on a space while
      tracking or on an empty text. */
  function NextTransition(t: char, loc: TriggerLocation, previousChar: string, tracking: bool,
                          val: string, selEnd: nat): Transition
  {
    var lastChar := CharAt(val, selEnd);
    if lastChar == [t] && WordBoundary(loc, previousChar) then Start
    else if (lastChar == " " && tracking) || val == "" then Stop
    else Keep
  }

  /** Tracking starts exactly when the character at the cursor is the
      trigger and the word-boundary policy holds, whatever the tracking
      state was. */
  lemma StartIff(t: char, loc: TriggerLocation, previousChar: string, tracking: bool, val: string, selEnd: nat)
    ensures NextTransition(t, loc, previousChar, tracking, val, selEnd) == Start
        <==> selEnd < |val| && val[selEnd] == t && (loc == Anywhere || TrimsToEmpty(previousChar))
  {
    if selEnd < |val| {
      assert CharAt(val, selEnd) == [t] <==> val[selEnd] == t;
    }
  }

  /** An empty text always stops tracking, whether or not it was on. */
  lemma StopOnEmptyText(t: char, loc: TriggerLocation, previousChar: string, tracking: bool, selEnd: nat)
    ensures NextTransition(t, loc, previousChar, tracking, "", selEnd) == Stop
  {
  }

  /** A space at the cursor while tracking stops it, unless the trigger is
      itself a space and the word-boundary policy holds, when the trigger
      check wins. */
  lemma StopOnSpaceWhileTracking(t: char, loc: TriggerLocation, previousChar: string, val: string, selEnd: nat)
    requires t != ' ' || !WordBoundary(loc, previousChar)
    requires selEnd < |val| && val[selEnd] == ' '
    ensures NextTransition(t, loc, previousChar, true, val, selEnd) == Stop
  {
  }

  /** Every other change keeps tracking as it was: a non-empty text whose
      cursor character neither is a qualifying trigger nor a space that ends
      a tracked keyword. */
  lemma KeepIff(t: char, loc: TriggerLocation, previousChar: string, tracking: bool, val: string, selEnd: nat)
    ensures NextTransition(t, loc, previousChar, tracking, val, selEnd) == Keep
        <==> val != ""
             && !(selEnd < |val| && val[selEnd] == t && WordBoundary(loc, previousChar))
             && !(tracking && selEnd < |val| && val[selEnd] == ' ')
  {
    if selEnd < |val| {
      assert CharAt(val, selEnd) == [t] <==> val[selEnd] == t;
      assert CharAt(val, selEnd) == " " <==> val[selEnd] == ' ';
    }
  }

  /** New-word-only mode: "@" typed after "x" does not start tracking,
      "@" typed after a space does. */
  lemma ExampleNewWordOnlyStart()
    ensures NextTransition('@', NewWordOnly, "x", false, "x@", 1) == Keep
    ensures NextTransition('@', NewWordOnly, " ", false, " @", 1) == Start
  {
    assert !TrimsToEmpty("x") by { assert !IsJsWhitespace("x"[0]); }
    assert CharAt("x@", 1) == "@";
    assert CharAt(" @", 1) == "@";
  }
}

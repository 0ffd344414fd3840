/** The `MentionsTextInput` component: the instance state it
    updates in its event handlers, and those handlers. A `setState` call is
    taken to apply at once, so the instance flag `isTrackingStarted` and the
    one in the component state are one field, `tracking`. */
module Mentions {
  import opened Wrappers
  import opened JsText
  import opened ComponentProps
  import opened Keyword
  import opened Tracking
  import opened Layout

  class MentionsTextInput {
    var props: Props
    /** Whether a mention keyword is being tracked. */
    var tracking: bool
    /** The character read at the cursor on the previous change. */
    var previousChar: string
    /** The end of the current selection, that is, the cursor. */
    var selEnd: nat
    /** The last height requested for the suggestions panel's animation. */
    var panelTarget: int
    /** The computed text box height, before the maximum is applied. */
    var textInputHeight: int
    /** Every text forwarded to the caller's `onChangeText`. */
    ghost var forwarded: seq<string>
    /** Every keyword passed to the caller's `triggerCallback`. */
    ghost var reported: seq<string>

    /** The trigger is one the keyword scan handles, the previous character
        is at most one character, and the panel is closed while nothing is
        tracked. */
    ghost predicate Valid()
      reads this
    {
      ValidTrigger(props.trigger) && |previousChar| <= 1 && (!tracking ==> panelTarget == 0)
    }

    /** Construction followed by `componentWillMount`, which sets the text
        box to its minimum height. */
    constructor (p: Props)
      requires ValidTrigger(p.trigger)
      ensures Valid()
      ensures props == p && !tracking && previousChar == " " && selEnd == 0
      ensures panelTarget == 0 && textInputHeight == p.textInputMinHeight
      ensures forwarded == [] && reported == []
    {
      props := p;
      tracking := false;
      previousChar := " ";
      selEnd := 0;
      panelTarget := 0;
      textInputHeight := p.textInputMinHeight;
      forwarded := [];
      reported := [];
    }

    /** Animates the panel to `height`, or to the row height when no height
        is given. */
    method OpenSuggestionsPanel(height: Option<int>)
      modifies this`panelTarget
      ensures panelTarget == PanelTarget(height, props.suggestionRowHeight)
    {
      panelTarget := PanelTarget(height, props.suggestionRowHeight);
    }

    /** Animates the panel closed. */
    method CloseSuggestionsPanel()
      modifies this`panelTarget
      ensures panelTarget == 0
    {
      panelTarget := 0;
    }

    /** Starts tracking and opens the panel to one row. */
    method StartTracking()
      requires Valid()
      modifies this`tracking, this`panelTarget
      ensures Valid()
      ensures tracking && panelTarget == props.suggestionRowHeight
    {
      tracking := true;
      OpenSuggestionsPanel(None);
    }

    /** Stops tracking and closes the panel; the suggestion rows may call it too. */
    method StopTracking()
      requires Valid()
      modifies this`tracking, this`panelTarget
      ensures Valid()
      ensures !tracking && panelTarget == 0
    {
      tracking := false;
      CloseSuggestionsPanel();
    }

    /** Clears the tracking state and shrinks the text box to its minimum. */
    method ResetTextbox()
      requires Valid()
      modifies this`previousChar, this`tracking, this`panelTarget, this`textInputHeight
      ensures Valid()
      ensures !tracking && previousChar == " " && panelTarget == 0
      ensures textInputHeight == props.textInputMinHeight
    {
      previousChar := " ";
      StopTracking();
      textInputHeight := props.textInputMinHeight;
    }

    /** While tracking, reports the last keyword before the cursor, if any. */
    method IdentifyKeyword(val: string)
      modifies this`reported
      ensures reported == old(reported)
        + (if tracking then LastKeyword(val, selEnd, props.trigger, props.triggerLocation).ToSeq() else [])
    {
      if tracking {
        var keyword := LastKeyword(val, selEnd, props.trigger, props.triggerLocation);
        if keyword.Some? {
          reported := reported + [keyword.value];
        }
      }
    }

    /** The text-change handler: forwards the text, decides on tracking from
        the character at the cursor, remembers that character and reports
        the keyword. */
    method OnChangeText(val: string)
      requires Valid()
      modifies this`tracking, this`panelTarget, this`previousChar, this`forwarded, this`reported
      ensures Valid()
      ensures forwarded == old(forwarded) + [val]
      ensures var tr := NextTransition(props.trigger, props.triggerLocation, old(previousChar), old(tracking), val, selEnd);
              && (tr == Start ==> tracking && panelTarget == props.suggestionRowHeight)
              && (tr == Stop ==> !tracking && panelTarget == 0)
              && (tr == Keep ==> tracking == old(tracking) && panelTarget == old(panelTarget))
      ensures previousChar == CharAt(val, selEnd)
      ensures reported == old(reported)
        + (if tracking then LastKeyword(val, selEnd, props.trigger, props.triggerLocation).ToSeq() else [])
    {
      forwarded := forwarded + [val];
      var lastChar := CharAt(val, selEnd);
      var wordBoundary := WordBoundary(props.triggerLocation, previousChar);
      if lastChar == [props.trigger] && wordBoundary {
        StartTracking();
      } else if (lastChar == " " && tracking) || val == "" {
        StopTracking();
      }
      previousChar := lastChar;
      IdentifyKeyword(val);
    }

    /** New props from the parent. The rule reads the new props; the panel's
        fallback height and the reset's minimum height still come from the
        current ones, which the new props replace afterwards. */
    method ReceiveProps(next: Props)
      requires Valid() && ValidTrigger(next.trigger)
      modifies this`props, this`previousChar, this`tracking, this`panelTarget, this`textInputHeight
      ensures Valid() && props == next
      ensures next.value == "" ==>
                !tracking && previousChar == " " && panelTarget == 0
                && textInputHeight == old(props.textInputMinHeight)
      ensures next.value != "" ==>
                tracking == old(tracking) && previousChar == old(previousChar)
                && textInputHeight == old(textInputHeight)
      ensures next.value != "" && old(tracking) && !next.horizontal && next.suggestionsCount != 0 ==>
                panelTarget == PanelTarget(HeightRequest(next.maxVisibleRowCount, next.suggestionsCount,
                                                         next.suggestionRowHeight),
                                           old(props.suggestionRowHeight))
      ensures next.value != "" && next.suggestionsCount == 0 ==> panelTarget == 0
      ensures next.value != "" && next.suggestionsCount != 0 && !(old(tracking) && !next.horizontal) ==>
                panelTarget == old(panelTarget)
    {
      if next.value == "" {
        ResetTextbox();
      } else if tracking && !next.horizontal && next.suggestionsCount != 0 {
        var height := HeightRequest(next.maxVisibleRowCount, next.suggestionsCount, next.suggestionRowHeight);
        OpenSuggestionsPanel(height);
      } else if next.suggestionsCount == 0 {
        OpenSuggestionsPanel(Some(0));
      }
      props := next;
    }

    /** The selection-change handler records the cursor. */
    method OnSelectionChange(end: nat)
      requires Valid()
      modifies this`selEnd
      ensures Valid()
      ensures selEnd == end
    {
      selEnd := end;
    }

    /** The content-size handler autosizes the text box. */
    method OnContentSizeChange(contentHeight: int)
      requires Valid()
      modifies this`textInputHeight
      ensures Valid()
      ensures textInputHeight == AutosizeHeight(props.textInputMinHeight, contentHeight)
    {
      textInputHeight := AutosizeHeight(props.textInputMinHeight, contentHeight);
    }

    /** The height the text box is rendered with, never above the maximum. */
    function RenderedTextInputHeight(): (h: int)
      reads this
      ensures h <= props.textInputMaxHeight && h <= textInputHeight
      ensures h == props.textInputMaxHeight || h == textInputHeight
    {
      RenderedHeight(props.textInputMaxHeight, textInputHeight)
    }
  }

  /** A client typing "x@" in new-word-only mode, the cursor on each new
      character: the "@" follows a word character, so nothing is tracked. */
  method TriggerAfterWordIgnored()
  {
    assert !TrimsToEmpty("x") by { assert !IsJsWhitespace("x"[0]); }
    var c := new MentionsTextInput(WithDefaults('@', NewWordOnly, "", 0, Some(3), 20));
    assert c.textInputHeight == 30;
    c.OnSelectionChange(0);
    assert CharAt("x", 0) == "x";
    c.OnChangeText("x");
    c.OnSelectionChange(1);
    assert CharAt("x@", 1) == "@";
    c.OnChangeText("x@");
    assert !c.tracking && c.panelTarget == 0 && c.reported == [];
    assert c.forwarded == ["x", "x@"];
  }

  /** A trigger typed into an empty box is reported on its own. */
  lemma TriggerAloneKeyword(loc: TriggerLocation)
    ensures LastKeyword("@", 0, '@', loc) == Some("@")
  {
    assert Prefix("@", 0) == "@";
    assert IsLastMention("@", 0, '@', loc, "@");
    LastMentionIsLastMatch("@", 0, '@', loc, "@");
  }

  /** A client typing "@" into an empty box in new-word-only mode: the
      trigger at the start opens the panel to one row and is reported. Five
      suggestions then resize the panel to three rows, two to two rows, and
      an empty list closes it while tracking goes on. */
  method TrackedMention()
  {
    TriggerAloneKeyword(NewWordOnly);
    var c := new MentionsTextInput(WithDefaults('@', NewWordOnly, "", 0, Some(3), 20));
    assert CharAt("@", 0) == "@";
    c.OnChangeText("@");
    assert c.tracking && c.panelTarget == 20 && c.reported == ["@"];
    c.ReceiveProps(Props('@', NewWordOnly, "@", 5, false, Some(3), 20, 30, 80));
    assert c.panelTarget == 60;
    c.ReceiveProps(Props('@', NewWordOnly, "@", 2, false, Some(3), 20, 30, 80));
    assert c.panelTarget == 40;
    c.ReceiveProps(Props('@', NewWordOnly, "@", 0, false, Some(3), 20, 30, 80));
    assert c.tracking && c.panelTarget == 0;
  }

  /** A space typed after a tracked "@" closes the panel and reports nothing more. */
  method SpaceEndsMention()
  {
    TriggerAloneKeyword(Anywhere);
    var c := new MentionsTextInput(WithDefaults('@', Anywhere, "", 0, Some(3), 20));
    assert CharAt("@", 0) == "@";
    c.OnChangeText("@");
    assert c.tracking && c.reported == ["@"];
    c.OnSelectionChange(1);
    assert CharAt("@ ", 1) == " ";
    c.OnChangeText("@ ");
    assert !c.tracking && c.panelTarget == 0 && c.reported == ["@"];
  }

  /** Clearing the text from the parent resets the box. */
  method ClearedByParent()
  {
    var c := new MentionsTextInput(Props('@', Anywhere, "", 0, false, Some(3), 20, 30, 80));
    c.OnContentSizeChange(50);
    assert c.textInputHeight == 60 && c.RenderedTextInputHeight() == 60;
    c.OnContentSizeChange(100);
    assert c.RenderedTextInputHeight() == 80;
    c.ReceiveProps(Props('@', Anywhere, "", 0, false, Some(3), 20, 30, 80));
    assert !c.tracking && c.previousChar == " " && c.panelTarget == 0 && c.textInputHeight == 30;
  }
}

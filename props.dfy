/** The props of `MentionsTextInput` that the core reads, with their defaults. */
module ComponentProps {
  import opened Wrappers

  /** The `triggerLocation` prop, read by both the tracking decision and the
      keyword scan. */
  datatype TriggerLocation = NewWordOnly | Anywhere

  /** The default props used when the caller leaves them undefined. */
  const DefaultTextInputMinHeight: int := 30
  const DefaultTextInputMaxHeight: int := 80
  const DefaultHorizontal: bool := true

  /** The props the core reads. `suggestionsCount` is the length of
      `suggestionsData`; `maxVisibleRowCount` is `None` when undefined. */
  datatype Props = Props(
    trigger: char,
    triggerLocation: TriggerLocation,
    value: string,
    suggestionsCount: nat,
    horizontal: bool,
    maxVisibleRowCount: Option<int>,
    suggestionRowHeight: int,
    textInputMinHeight: int,
    textInputMaxHeight: int)

  /** Props with `horizontal`, `textInputMinHeight` and `textInputMaxHeight`
      left to their defaults. */
  function WithDefaults(trigger: char, triggerLocation: TriggerLocation, value: string,
                        suggestionsCount: nat, maxVisibleRowCount: Option<int>,
                        suggestionRowHeight: int): Props
  {
    Props(trigger, triggerLocation, value, suggestionsCount, DefaultHorizontal, maxVisibleRowCount,
          suggestionRowHeight, DefaultTextInputMinHeight, DefaultTextInputMaxHeight)
  }
}

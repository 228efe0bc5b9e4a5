# Feedback tag options

A Dafny model of the feedback widget shown after a chat message is rated
thumbs-up or thumbs-down, and of the taxonomy of feedback tags behind it.

- `feedback.dfy`, module `Feedback`: the ratings (`ThumbsUp`, `ThumbsDown`;
  an absent rating is `None`), the closed set of tags as a datatype, the
  content attached to a rating (optional tag list, optional text), the caller's
  feedback record (optional rating, optional content), and the two ordered tag
  lists `ThumbsDownTags` and `ThumbsUpTags`. Tags are written in the program as
  identifier strings `com_ui_feedback_tag_<name>`; `Key` and `FromKey`
  translate between those strings and the datatype.
- `feedback_tag_options.dfy`, module `FeedbackTagOptions`: the selector
  component. The pure side computes the new tag list of a checkbox toggle
  (append, or filter out), the records handed to `onChange`, and what is shown
  (nothing without a rating; the options for the rating; which options are
  checked; whether the free-text box appears; the colour category of an
  option). The stateful side is the class `TagOptions` with the component's
  own state, `localText` (the draft of the free text) and `hasTextChanged` (the
  dirty flag), and one method per handler. The calls a handler makes to the
  caller's `onChange` and `onOpenChange` are the `Event`s it returns, in order.
  The effect that resynchronises the draft is the method `Sync`, which the
  caller invokes after the first render and whenever the external text or the
  open flag changes.

## Model

| member | source | states |
|---|---|---|
| `Feedback.TagsFor` | packages/data-provider/src/feedback.ts:8-29 | each rating's list is non-empty, ends with the "other" tag and holds no tag twice |
| `Feedback.ThumbsDownList` | packages/data-provider/src/feedback.ts:9-19 | the thumbs-down list has 9 tags, from "memory" first to "other" last |
| `Feedback.ThumbsUpList` | packages/data-provider/src/feedback.ts:20-28 | the thumbs-up list has 7 tags, from "helpful" first to "other" last |
| `Feedback.OnlyOtherIsShared` | packages/data-provider/src/feedback.ts:9-28 | a tag is in both lists exactly when it is "other" |
| `Feedback.EveryTagIsListed` | packages/data-provider/src/feedback.ts:31 | every tag belongs to at least one of the two lists |
| `Feedback.Key` | packages/data-provider/src/feedback.ts:9-28 | every tag identifier is the common prefix `com_ui_feedback_tag_` followed by a non-empty name |
| `Feedback.FromKey` | packages/data-provider/src/feedback.ts:31 | a string read as a tag is exactly that tag's identifier |
| `Feedback.KeyRoundTrip` | packages/data-provider/src/feedback.ts:9-28 | reading a tag's identifier gives back the tag |
| `Feedback.KeyInjective` | packages/data-provider/src/feedback.ts:9-28 | two tags have the same identifier string exactly when they are the same tag |
| `Feedback.KeysDistinct` | packages/data-provider/src/feedback.ts:9-28 | a list of distinct tags is written as a list of pairwise distinct identifier strings |
| `Feedback.TaxonomyKeysDistinct` | packages/data-provider/src/feedback.ts:9-28 | neither string array, thumbs-down or thumbs-up, repeats an identifier |
| `Feedback.ValidKeys` | packages/data-provider/src/feedback.ts:31 | a string is a valid tag identifier exactly when it occurs in the thumbs-down or the thumbs-up list |
| `FeedbackTagOptions.RemoveTag` | client/src/components/Chat/Messages/FeedbackTagOptions.tsx:131 | unchecking removes every occurrence of the tag and keeps every other tag with its multiplicity |
| `FeedbackTagOptions.RemoveTagKeepsOrder` | client/src/components/Chat/Messages/FeedbackTagOptions.tsx:131 | the tags left after unchecking are a subsequence of the old list, in the old order |
| `FeedbackTagOptions.RemoveAbsentTag` | client/src/components/Chat/Messages/FeedbackTagOptions.tsx:131 | unchecking a tag that is not in the list leaves the list as it was |
| `FeedbackTagOptions.RemoveTagDistributes` | client/src/components/Chat/Messages/FeedbackTagOptions.tsx:131 | filtering a concatenation filters each part and concatenates the results |
| `FeedbackTagOptions.RemoveTagKeepsNoDuplicates` | client/src/components/Chat/Messages/FeedbackTagOptions.tsx:131 | filtering a list without duplicates gives a list without duplicates |
| `FeedbackTagOptions.ToggleTags` | client/src/components/Chat/Messages/FeedbackTagOptions.tsx:128-131 | afterwards the tag is present exactly when checked and no other tag's presence changes; checking keeps the old list as a prefix and puts the tag last; unchecking drops the tag and keeps the multiplicity of every other tag |
| `FeedbackTagOptions.CheckThenUncheck` | client/src/components/Chat/Messages/FeedbackTagOptions.tsx:128-131 | checking an absent tag and then unchecking it gives back the original list |
| `FeedbackTagOptions.ToggleKeepsNoDuplicates` | client/src/components/Chat/Messages/FeedbackTagOptions.tsx:126-131 | when the checkbox reports the opposite of its shown state, a list without duplicates stays without duplicates |
| `FeedbackTagOptions.ToggledFeedback` | client/src/components/Chat/Messages/FeedbackTagOptions.tsx:127-142 | the emitted record keeps the rating, has tags and text present, its tags are the toggled old tags (absent read as empty) and its text is the old text (absent read as empty) |
| `FeedbackTagOptions.SubmittedFeedback` | client/src/components/Chat/Messages/FeedbackTagOptions.tsx:53-61 | the committed record keeps the rating and the old tags (absent read as empty) and carries the draft as its text |
| `FeedbackTagOptions.ShownOptions` | client/src/components/Chat/Messages/FeedbackTagOptions.tsx:112 | with a rating present the options shown are exactly that rating's list, in order, and include "other" |
| `FeedbackTagOptions.OptionPalette` | client/src/components/Chat/Messages/FeedbackTagOptions.tsx:16-25 | an option is coloured positive exactly when selected under thumbs-up, negative exactly when selected under thumbs-down, neutral otherwise |
| `FeedbackTagOptions.ToggleSelection` | client/src/components/Chat/Messages/FeedbackTagOptions.tsx:119-141 | after a toggle the toggled option shows checked exactly when it was checked, and every other option keeps its checked state |
| `FeedbackTagOptions.ToggleTextBox` | client/src/components/Chat/Messages/FeedbackTagOptions.tsx:172 | the free-text box shows after a toggle exactly when "other" was just checked in a rendered widget, or was already shown and another tag was toggled |
| `FeedbackTagOptions.SubmitKeepsView` | client/src/components/Chat/Messages/FeedbackTagOptions.tsx:53-61 | committing the text changes no option's checked state and does not change whether the widget renders |
| `FeedbackTagOptions.DeleteHidesEverything` | client/src/components/Chat/Messages/FeedbackTagOptions.tsx:68-70 | after a delete the widget renders nothing, no option is selected and the text reads as empty |
| `FeedbackTagOptions.CheckIncorrectExample` | client/src/components/Chat/Messages/FeedbackTagOptions.tsx:128-141 | checking "incorrect" on a thumbs-down whose tags are ["style"] emits tags ["style", "incorrect"] and text "" |
| `FeedbackTagOptions.TagOptions.constructor` | client/src/components/Chat/Messages/FeedbackTagOptions.tsx:34-35 | the draft starts empty and not dirty |
| `FeedbackTagOptions.TagOptions.Sync` | client/src/components/Chat/Messages/FeedbackTagOptions.tsx:38-41 | the draft becomes the external text (absent read as empty) and the dirty flag is cleared; on a state already in sync it changes nothing, so running it twice is the same as once |
| `FeedbackTagOptions.TagOptions.TextChange` | client/src/components/Chat/Messages/FeedbackTagOptions.tsx:44-47 | the draft becomes the typed value and the dirty flag is set; no callback is made |
| `FeedbackTagOptions.TagOptions.Submit` | client/src/components/Chat/Messages/FeedbackTagOptions.tsx:50-66 | with the flag set: one `onChange` with the committed record, then `onOpenChange(false)`; with the flag clear: only `onOpenChange(false)`; the draft is untouched |
| `FeedbackTagOptions.TagOptions.ToggleTag` | client/src/components/Chat/Messages/FeedbackTagOptions.tsx:127-142 | exactly one `onChange`, with the toggled record; the draft and the flag are untouched |
| `FeedbackTagOptions.TagOptions.Delete` | client/src/components/Chat/Messages/FeedbackTagOptions.tsx:150 | exactly one `onChange`, with rating and content both absent, whatever the state; that record renders nothing |
| `FeedbackTagOptions.EditThenSubmit` | client/src/components/Chat/Messages/FeedbackTagOptions.tsx:38-66 | after a sync and any non-empty series of edits, submit commits the last typed text with the rating and tags unchanged, then closes |
| `FeedbackTagOptions.ReopenDiscardsDraft` | client/src/components/Chat/Messages/FeedbackTagOptions.tsx:38-66 | an edit followed by a resync with the external text unchanged is discarded: submit then only closes |

The rating and content types (packages/data-provider/src/feedback.ts:1-6) are
the datatypes `Rating` with `Option<Rating>`, and `Content` with its two
`Option` fields. The defaults `feedback.ratingContent?.tags ?? []`
(client/src/components/Chat/Messages/FeedbackTagOptions.tsx:54 and 128) and
`feedback.ratingContent?.text ?? ''` (lines 39 and 135) are the functions
`CurrentTags` and `CurrentText`, through which every contract above reads the
caller's record. The guard that renders nothing without a rating (lines 68-70),
the `includes`-based selected flag (lines 119 and 126) and the textarea
condition (line 172, reached only past the guard) are the predicates `Renders`,
`IsSelected` and `ShowsTextBox`, whose properties are the lemmas above.

The type of the caller's feedback record is imported from elsewhere in the data
provider and is not part of this model; `MessageFeedback` has the two fields the
component reads and writes (`rating`, `ratingContent`).

Two facts about the code that the model keeps as they are:
- Checking appends the tag without looking at the list
  (client/src/components/Chat/Messages/FeedbackTagOptions.tsx:130), so the list
  can hold a tag twice; `ToggleTags` appends the same way, and
  `ToggleKeepsNoDuplicates` proves that no duplicate arises when the checkbox
  reports the opposite of its shown state.
- `hasTextChanged` is set on every edit
  (client/src/components/Chat/Messages/FeedbackTagOptions.tsx:46), even one that
  restores the original text; `TextChange` does the same.

## Left out

- JSX rendering, the popover plumbing (including its own calls to
  `onOpenChange` from the close button and outside clicks), icons and the
  header colour chosen by rating: presentation and a foreign library; only the
  "what is shown" facts are modelled.
- The Tailwind class strings of the option style: only their three-way colour
  category is modelled (`OptionPalette`).
- Localised display strings: the lookup is an external collaborator; a tag is
  modelled by its identifier.
- React state and effect scheduling: `Sync` is called explicitly by the caller;
  the model does not track the effect's dependency list, so when the effect
  would run is the caller's concern.
- Fields of the caller's feedback record other than `rating` and
  `ratingContent`: toggle and submit spread the old record and so keep them,
  while delete builds a new record and so drops them; `MessageFeedback` has only
  the two fields, so the model does not show this difference.
- What the caller does with the emitted values (persistence, network).

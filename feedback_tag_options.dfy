/**
 The feedback tag selector shown after a message is rated. The caller owns the
 `MessageFeedback` value and receives every proposed change through `onChange`;
 the selector keeps only a draft of the free text (`localText`) and a flag
 saying whether the draft was edited since the last resynchronisation
 (`hasTextChanged`).

 Calls to the caller's `onChange` and `onOpenChange` are modelled as the
 `Event`s a handler returns, in the order it makes them.
 */
module FeedbackTagOptions {
  import opened Feedback

  datatype Event = OnChange(feedback: MessageFeedback) | OnOpenChange(open: bool)

  /** `feedback.ratingContent?.tags ?? []` */
  function CurrentTags(f: MessageFeedback): (tags: seq<Tag>) {
    if f.ratingContent.Some? && f.ratingContent.value.tags.Some? then f.ratingContent.value.tags.value else []
  }

  /** `feedback.ratingContent?.text ?? ''` */
  function CurrentText(f: MessageFeedback): (text: string) {
    if f.ratingContent.Some? && f.ratingContent.value.text.Some? then f.ratingContent.value.text.value else ""
  }

  // ---------------------------------------------------------------------
  // New tag list of a checkbox toggle

  /** `tags.filter(t => t !== tag)` */
  function RemoveTag(tags: seq<Tag>, tag: Tag): (r: seq<Tag>)
    ensures tag !in r
    ensures forall t :: t != tag ==> (t in r <==> t in tags)
    ensures multiset(r) == multiset(tags)[tag := 0]
  {
    if tags == [] then []
    else
      assert tags == [tags[0]] + tags[1..];
      if tags[0] == tag then RemoveTag(tags[1..], tag)
      else [tags[0]] + RemoveTag(tags[1..], tag)
  }

  /** `a` is `b` with some elements dropped and the rest in their order. */
  ghost predicate IsSubsequence(a: seq<Tag>, b: seq<Tag>)
    decreases |b|
  {
    a == [] || (b != [] && ((a[0] == b[0] && IsSubsequence(a[1..], b[1..])) || IsSubsequence(a, b[1..])))
  }

  /** Unchecking keeps the remaining tags in their original order. */
  lemma {:induction false} RemoveTagKeepsOrder(tags: seq<Tag>, tag: Tag)
    ensures IsSubsequence(RemoveTag(tags, tag), tags)
  {
    if tags != [] {
      RemoveTagKeepsOrder(tags[1..], tag);
      var r := RemoveTag(tags, tag);
      if tags[0] != tag {
        assert r[0] == tags[0] && r[1..] == RemoveTag(tags[1..], tag);
      }
    }
  }

  lemma {:induction false} RemoveAbsentTag(tags: seq<Tag>, tag: Tag)
    requires tag !in tags
    ensures RemoveTag(tags, tag) == tags
  {
    if tags != [] {
      RemoveAbsentTag(tags[1..], tag);
    }
  }

  lemma {:induction false} RemoveTagDistributes(a: seq<Tag>, b: seq<Tag>, tag: Tag)
    ensures RemoveTag(a + b, tag) == RemoveTag(a, tag) + RemoveTag(b, tag)
  {
    if a != [] {
      assert (a + b)[1..] == a[1..] + b;
      RemoveTagDistributes(a[1..], b, tag);
    } else {
      assert a + b == b;
    }
  }

  lemma {:induction false} RemoveTagKeepsNoDuplicates(tags: seq<Tag>, tag: Tag)
    requires NoDuplicates(tags)
    ensures NoDuplicates(RemoveTag(tags, tag))
  {
    if tags != [] {
      assert NoDuplicates(tags[1..]) by {
        forall i, j | 0 <= i < j < |tags[1..]| ensures tags[1..][i] != tags[1..][j] {
          assert tags[1..][i] == tags[i + 1] && tags[1..][j] == tags[j + 1];
        }
      }
      RemoveTagKeepsNoDuplicates(tags[1..], tag);
      if tags[0] != tag {
        var rest := RemoveTag(tags[1..], tag);
        assert tags[0] !in tags[1..] by {
          forall j | 0 <= j < |tags[1..]| ensures tags[1..][j] != tags[0] {
            assert tags[1..][j] == tags[j + 1];
          }
        }
        assert tags[0] !in rest;
        var r := [tags[0]] + rest;
        forall i, j | 0 <= i < j < |r| ensures r[i] != r[j] {
          if i == 0 {
            assert r[j] == rest[j - 1];
          } else {
            assert r[i] == rest[i - 1] && r[j] == rest[j - 1];
          }
        }
      }
    }
  }

  /** The new tag list when a checkbox reports `checked` for `tag`. */
  function ToggleTags(tags: seq<Tag>, tag: Tag, checked: bool): (r: seq<Tag>)
    ensures tag in r <==> checked
    ensures forall t :: t != tag ==> (t in r <==> t in tags)
    ensures checked ==> |r| == |tags| + 1 && r[..|tags|] == tags && r[|tags|] == tag
    ensures !checked ==> multiset(r) == multiset(tags)[tag := 0]
  {
    if checked then tags + [tag] else RemoveTag(tags, tag)
  }

  /** Checking a tag that is not selected and unchecking it again restores the list. */
  lemma CheckThenUncheck(tags: seq<Tag>, tag: Tag)
    requires tag !in tags
    ensures ToggleTags(ToggleTags(tags, tag, true), tag, false) == tags
  {
    RemoveTagDistributes(tags, [tag], tag);
    RemoveAbsentTag(tags, tag);
    assert RemoveTag([tag], tag) == [];
  }

  /** A checkbox reports the opposite of what it shows, so toggling never duplicates a tag. */
  lemma ToggleKeepsNoDuplicates(tags: seq<Tag>, tag: Tag, checked: bool)
    requires NoDuplicates(tags)
    requires checked <==> tag !in tags
    ensures NoDuplicates(ToggleTags(tags, tag, checked))
  {
    if !checked {
      RemoveTagKeepsNoDuplicates(tags, tag);
    } else {
      var r := ToggleTags(tags, tag, checked);
      forall i, j | 0 <= i < j < |r| ensures r[i] != r[j] {
        if j < |tags| {
          assert r[i] == tags[i] && r[j] == tags[j];
        } else {
          assert r[i] == tags[i];
        }
      }
    }
  }

  // ---------------------------------------------------------------------
  // Values passed to onChange

  /** The value a checkbox toggle passes to `onChange`. */
  function ToggledFeedback(f: MessageFeedback, tag: Tag, checked: bool): (r: MessageFeedback)
    ensures r.rating == f.rating
    ensures r.ratingContent.Some? && r.ratingContent.value.tags.Some? && r.ratingContent.value.text.Some?
    ensures CurrentTags(r) == ToggleTags(CurrentTags(f), tag, checked)
    ensures CurrentText(r) == CurrentText(f)
  {
    f.(ratingContent := Some(Content(Some(ToggleTags(CurrentTags(f), tag, checked)), Some(CurrentText(f)))))
  }

  /** The value a submit with an edited draft passes to `onChange`. */
  function SubmittedFeedback(f: MessageFeedback, localText: string): (r: MessageFeedback)
    ensures r.rating == f.rating
    ensures r.ratingContent.Some? && r.ratingContent.value.tags.Some? && r.ratingContent.value.text == Some(localText)
    ensures CurrentTags(r) == CurrentTags(f)
  {
    f.(ratingContent := Some(Content(Some(CurrentTags(f)), Some(localText))))
  }

  /** The value the delete button passes to `onChange`. */
  const Cleared: MessageFeedback := MessageFeedback(None, None)

  // ---------------------------------------------------------------------
  // What is shown

  /** The component renders nothing while the rating is absent. */
  predicate Renders(f: MessageFeedback) {
    f.rating.Some?
  }

  /** The tag options offered, in display order. */
  function ShownOptions(f: MessageFeedback): (ts: seq<Tag>)
    requires Renders(f)
    ensures ts == TagsFor(f.rating.value)
    ensures Other in ts
  {
    if f.rating.value == ThumbsUp then ThumbsUpTags else ThumbsDownTags
  }

  /** Whether the option for `tag` is shown checked. */
  predicate IsSelected(f: MessageFeedback, tag: Tag) {
    tag in CurrentTags(f)
  }

  /** Whether the free-text box is shown: "other" is selected in a rendered widget. */
  predicate ShowsTextBox(f: MessageFeedback) {
    Renders(f) && IsSelected(f, Other)
  }

  /** Colour category of an option: the three cases of the style choice. */
  datatype Palette = Positive | Negative | Neutral

  function OptionPalette(selected: bool, rating: Option<Rating>): (p: Palette)
    ensures p == Positive <==> selected && rating == Some(ThumbsUp)
    ensures p == Negative <==> selected && rating == Some(ThumbsDown)
    ensures p == Neutral <==> !selected || rating.None?
  {
    if selected && rating.Some? then
      match rating.value
      case ThumbsUp => Positive
      case ThumbsDown => Negative
    else Neutral
  }

  /** After a toggle exactly the toggled option changes its checked state, to `checked`. */
  lemma ToggleSelection(f: MessageFeedback, tag: Tag, checked: bool, t: Tag)
    ensures IsSelected(ToggledFeedback(f, tag, checked), t) <==> if t == tag then checked else IsSelected(f, t)
  {
  }

  /** The free-text box appears or disappears only when "other" itself is toggled. */
  lemma ToggleTextBox(f: MessageFeedback, tag: Tag, checked: bool)
    ensures ShowsTextBox(ToggledFeedback(f, tag, checked)) <==> if tag == Other then checked && Renders(f) else ShowsTextBox(f)
  {
  }

  /** A submit changes no option's checked state and keeps the widget shown. */
  lemma SubmitKeepsView(f: MessageFeedback, localText: string, t: Tag)
    ensures IsSelected(SubmittedFeedback(f, localText), t) <==> IsSelected(f, t)
    ensures Renders(SubmittedFeedback(f, localText)) <==> Renders(f)
  {
  }

  /** After a delete nothing is selected and nothing is rendered. */
  lemma DeleteHidesEverything(t: Tag)
    ensures !Renders(Cleared) && !IsSelected(Cleared, t) && CurrentText(Cleared) == ""
  {
  }

  /** Checking "incorrect" on a thumbs-down that has the style tag appends it. */
  lemma CheckIncorrectExample()
    ensures var f := MessageFeedback(Some(ThumbsDown), Some(Content(Some([Style]), None)));
            ToggledFeedback(f, Incorrect, true)
            == MessageFeedback(Some(ThumbsDown), Some(Content(Some([Style, Incorrect]), Some(""))))
  {
    assert [Style] + [Incorrect] == [Style, Incorrect];
  }

  // ---------------------------------------------------------------------
  // The component's own state and its handlers

  class TagOptions {
    var localText: string
    var hasTextChanged: bool

    /** Both pieces of local state start empty. */
    constructor ()
      ensures localText == "" && !hasTextChanged
    {
      localText := "";
      hasTextChanged := false;
    }

    /** Whether the draft equals the external text and is not dirty. */
    predicate InSync(f: MessageFeedback)
      reads this
    {
      localText == CurrentText(f) && !hasTextChanged
    }

    /**
     The effect run after the first render and whenever the external text or
     the open flag changes: the draft takes the external text and is no longer
     dirty. Running it on a state it produced changes nothing.
     */
    method Sync(feedback: MessageFeedback)
      modifies this
      ensures localText == CurrentText(feedback) && !hasTextChanged
      ensures old(InSync(feedback)) ==> localText == old(localText) && hasTextChanged == old(hasTextChanged)
    {
      localText := CurrentText(feedback);
      hasTextChanged := false;
    }

    /** Typing in the free-text box: updates the draft only; nothing is emitted. */
    method TextChange(value: string)
      modifies this
      ensures localText == value && hasTextChanged
    {
      localText := value;
      hasTextChanged := true;
    }

    /**
     The check button: commits the draft only when it was edited, then asks
     for the popover to close.
     */
    method Submit(feedback: MessageFeedback) returns (events: seq<Event>)
      ensures |events| == if hasTextChanged then 2 else 1
      ensures events[|events| - 1] == OnOpenChange(false)
      ensures hasTextChanged ==> events[0] == OnChange(SubmittedFeedback(feedback, localText))
    {
      events := [];
      if hasTextChanged {
        events := events + [OnChange(SubmittedFeedback(feedback, localText))];
      }
      events := events + [OnOpenChange(false)];
    }

    /** A tag checkbox: emits the new feedback at once; the draft is untouched. */
    method ToggleTag(feedback: MessageFeedback, tag: Tag, checked: bool) returns (events: seq<Event>)
      ensures events == [OnChange(ToggledFeedback(feedback, tag, checked))]
    {
      events := [OnChange(ToggledFeedback(feedback, tag, checked))];
    }

    /** The delete button: clears rating and content whatever the state. */
    method Delete() returns (events: seq<Event>)
      ensures events == [OnChange(Cleared)]
      ensures !Renders(events[0].feedback)
    {
      events := [OnChange(Cleared)];
    }
  }

  /**
   Typing any non-empty series of edits and then submitting commits the last
   typed text with the rating and tags unchanged, then closes.
   */
  method EditThenSubmit(feedback: MessageFeedback, edits: seq<string>) returns (events: seq<Event>)
    requires |edits| > 0
    ensures |events| == 2 && events[1] == OnOpenChange(false)
    ensures events[0].OnChange? && events[0].feedback.rating == feedback.rating
    ensures CurrentTags(events[0].feedback) == CurrentTags(feedback)
    ensures CurrentText(events[0].feedback) == edits[|edits| - 1]
  {
    var c := new TagOptions();
    c.Sync(feedback);
    for i := 0 to |edits|
      invariant c.localText == (if i == 0 then CurrentText(feedback) else edits[i - 1])
      invariant c.hasTextChanged == (i > 0)
    {
      c.TextChange(edits[i]);
    }
    events := c.Submit(feedback);
  }

  /** An edit abandoned by closing and reopening is discarded: submit then only closes. */
  method ReopenDiscardsDraft(feedback: MessageFeedback, typed: string) returns (events: seq<Event>)
    ensures events == [OnOpenChange(false)]
  {
    var c := new TagOptions();
    c.Sync(feedback);
    c.TextChange(typed);
    c.Sync(feedback);
    events := c.Submit(feedback);
  }
}

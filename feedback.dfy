/**
 The feedback taxonomy shared by the client and the data provider: the two
 ratings, the closed vocabulary of tags, the ordered list of tags offered for
 each rating, and the shape of the content attached to a rating.

 Tags are identified in the program by localisation keys of the form
 `com_ui_feedback_tag_<name>`; here they are constructors of `Tag`, and `Key`
 and `FromKey` translate between the two.
 */
module Feedback {

  datatype Option<+T> = None | Some(value: T)

  /** A rating that is present; an absent rating is `None` in `Option<Rating>`. */
  datatype Rating = ThumbsUp | ThumbsDown

  /** Every tag identifier that appears in either list. */
  datatype Tag =
    | Memory | Style | Incorrect | Instructions | Refused | Lazy | Unsafe | Biased
    | Helpful | Clear | Concise | Creative | Knowledgeable | Engaging
    | Other

  /** The content attached to a rating: both fields may be absent. */
  datatype Content = Content(tags: Option<seq<Tag>>, text: Option<string>)

  /** The feedback on one message, owned by the caller of the tag selector. */
  datatype MessageFeedback = MessageFeedback(rating: Option<Rating>, ratingContent: Option<Content>)

  /** Tags offered after a thumbs-down, in display order. */
  const ThumbsDownTags: seq<Tag> :=
    [Memory, Style, Incorrect, Instructions, Refused, Lazy, Unsafe, Biased, Other]

  /** Tags offered after a thumbs-up, in display order. */
  const ThumbsUpTags: seq<Tag> :=
    [Helpful, Clear, Concise, Creative, Knowledgeable, Engaging, Other]

  ghost predicate NoDuplicates(s: seq<Tag>) {
    forall i, j :: 0 <= i < j < |s| ==> s[i] != s[j]
  }

  /** The lookup `feedbackTags[rating]`. */
  function TagsFor(r: Rating): (ts: seq<Tag>)
    ensures |ts| > 0 && ts[|ts| - 1] == Other
    ensures NoDuplicates(ts)
  {
    match r
    case ThumbsDown => ThumbsDownTags
    case ThumbsUp => ThumbsUpTags
  }

  lemma ThumbsDownList()
    ensures |ThumbsDownTags| == 9
    ensures ThumbsDownTags[0] == Memory && ThumbsDownTags[8] == Other
  {
  }

  lemma ThumbsUpList()
    ensures |ThumbsUpTags| == 7
    ensures ThumbsUpTags[0] == Helpful && ThumbsUpTags[6] == Other
  {
  }

  /** The two lists overlap in the "other" tag and nowhere else. */
  lemma OnlyOtherIsShared(t: Tag)
    ensures t in ThumbsDownTags && t in ThumbsUpTags <==> t == Other
  {
  }

  /** No tag exists outside the two lists: `Tag` is exactly their union. */
  lemma EveryTagIsListed(t: Tag)
    ensures t in ThumbsDownTags || t in ThumbsUpTags
  {
  }

  // ---------------------------------------------------------------------
  // Tag identifiers as strings

  const KeyPrefix: string := "com_ui_feedback_tag_"

  function Name(t: Tag): (name: string) {
    match t
    case Memory => "memory"
    case Style => "style"
    case Incorrect => "incorrect"
    case Instructions => "instructions"
    case Refused => "refused"
    case Lazy => "lazy"
    case Unsafe => "unsafe"
    case Biased => "biased"
    case Helpful => "helpful"
    case Clear => "clear"
    case Concise => "concise"
    case Creative => "creative"
    case Knowledgeable => "knowledgeable"
    case Engaging => "engaging"
    case Other => "other"
  }

  function FromName(s: string): (r: Option<Tag>) {
    if s == "memory" then Some(Memory)
    else if s == "style" then Some(Style)
    else if s == "incorrect" then Some(Incorrect)
    else if s == "instructions" then Some(Instructions)
    else if s == "refused" then Some(Refused)
    else if s == "lazy" then Some(Lazy)
    else if s == "unsafe" then Some(Unsafe)
    else if s == "biased" then Some(Biased)
    else if s == "helpful" then Some(Helpful)
    else if s == "clear" then Some(Clear)
    else if s == "concise" then Some(Concise)
    else if s == "creative" then Some(Creative)
    else if s == "knowledgeable" then Some(Knowledgeable)
    else if s == "engaging" then Some(Engaging)
    else if s == "other" then Some(Other)
    else None
  }

  /** The identifier string of a tag, as written in the two lists. */
  function Key(t: Tag): (k: string)
    ensures |k| > |KeyPrefix| && k[..|KeyPrefix|] == KeyPrefix
  {
    KeyPrefix + Name(t)
  }

  /** Reads an identifier string back as a tag; `None` for any other string. */
  function FromKey(k: string): (r: Option<Tag>)
    ensures r.Some? ==> Key(r.value) == k
  {
    if |k| >= |KeyPrefix| && k[..|KeyPrefix|] == KeyPrefix then
      var r := FromName(k[|KeyPrefix|..]);
      assert r.Some? ==> k == KeyPrefix + k[|KeyPrefix|..];
      r
    else None
  }

  lemma KeyRoundTrip(t: Tag)
    ensures FromKey(Key(t)) == Some(t)
  {
  }

  /** Distinct tags have distinct identifier strings. */
  lemma KeyInjective(a: Tag, b: Tag)
    ensures Key(a) == Key(b) <==> a == b
  {
  }

  /** The identifier strings of a list of tags, in the same order. */
  function Keys(ts: seq<Tag>): (ks: seq<string>) {
    seq(|ts|, i requires 0 <= i < |ts| => Key(ts[i]))
  }

  /** A list of distinct tags is written as a list of distinct strings. */
  lemma KeysDistinct(ts: seq<Tag>)
    requires NoDuplicates(ts)
    ensures forall i, j :: 0 <= i < j < |ts| ==> Keys(ts)[i] != Keys(ts)[j]
  {
  }

  /** Neither string array of the taxonomy repeats an identifier. */
  lemma TaxonomyKeysDistinct(r: Rating)
    ensures forall i, j :: 0 <= i < j < |TagsFor(r)| ==> Keys(TagsFor(r))[i] != Keys(TagsFor(r))[j]
  {
    KeysDistinct(TagsFor(r));
  }

  /**
   A string is a valid tag identifier exactly when it occurs in one of the two
   lists: the set of valid tags is the union of their elements.
   */
  lemma {:induction false} ValidKeys(k: string)
    ensures FromKey(k).Some? <==> k in Keys(ThumbsDownTags) || k in Keys(ThumbsUpTags)
  {
    var down, up := Keys(ThumbsDownTags), Keys(ThumbsUpTags);
    if FromKey(k).Some? {
      var t := FromKey(k).value;
      EveryTagIsListed(t);
      if t in ThumbsDownTags {
        var i :| 0 <= i < |ThumbsDownTags| && ThumbsDownTags[i] == t;
        assert down[i] == k;
      } else {
        var i :| 0 <= i < |ThumbsUpTags| && ThumbsUpTags[i] == t;
        assert up[i] == k;
      }
    } else if k in down {
      var i :| 0 <= i < |down| && down[i] == k;
      KeyRoundTrip(ThumbsDownTags[i]);
    } else if k in up {
      var i :| 0 <= i < |up| && up[i] == k;
      KeyRoundTrip(ThumbsUpTags[i]);
    }
  }
}

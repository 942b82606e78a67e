/** The teacher card: the bio excerpt and the chip lists for languages, grade
    levels and subjects. */
module UserCard {
  import opened Wrappers
  import opened Text
  import opened JsValues

  const NoBio := "No bio available."

  /** Bios that split on a space into at least this many pieces are cut short. */
  const TruncateAt := 10

  /** The number of pieces a cut-short bio keeps. */
  const KeptPieces := 6

  /** The bio line: a missing, empty or non-string bio shows the placeholder; a bio of
      fewer than `TruncateAt` space-separated pieces shows whole; a longer one shows its
      first `KeptPieces` pieces joined by single spaces, followed by "...". */
  function BioExcerpt(bio: JsValue): (r: string)
    ensures !Truthy(bio) || !bio.Str? ==> r == NoBio
    ensures bio.Str? && bio.s != "" && |Split(bio.s, ' ')| < TruncateAt ==> r == bio.s
    ensures bio.Str? && |Split(bio.s, ' ')| >= TruncateAt ==>
      r == Join(Split(bio.s, ' ')[..KeptPieces], ' ') + "..."
  {
    if Truthy(bio) && bio.Str? then
      var pieces := Split(bio.s, ' ');
      if |pieces| >= TruncateAt then Join(pieces[..KeptPieces], ' ') + "..." else bio.s
    else NoBio
  }

  /** A cut-short bio is a proper prefix of the bio, ending just before a space,
      followed by "...", and the whole line is strictly shorter than the bio. */
  lemma ExcerptIsPrefix(bio: string)
    requires |Split(bio, ' ')| >= TruncateAt
    ensures var r := BioExcerpt(Str(bio));
      |r| >= 3 && r[|r| - 3..] == "..."
      && r[..|r| - 3] < bio && bio[|r| - 3] == ' '
      && |r| < |bio|
  {
    var pieces := Split(bio, ' ');
    var head := Join(pieces[..KeptPieces], ' ');
    var tail := Join(pieces[KeptPieces..], ' ');
    JoinSplit(bio, ' ');
    JoinPrefix(pieces, KeptPieces, ' ');
    JoinLength(pieces[KeptPieces..], ' ');
    assert bio == head + [' '] + tail;
    var r := BioExcerpt(Str(bio));
    assert r == head + "...";
    assert r[..|r| - 3] == head;
    assert bio[..|head|] == head;
  }

  /** Bios of seven to nine pieces are shown whole: the cut only applies from ten
      pieces on, although a cut keeps six. */
  lemma MidLengthBiosShownWhole(bio: string)
    requires KeptPieces < |Split(bio, ' ')| < TruncateAt
    ensures BioExcerpt(Str(bio)) == bio
  {
    assert Split("", ' ') == [""];
  }

  /** The user fields the card reads. Absent keys are `Undefined`. */
  datatype CardUser = CardUser(bio: JsValue, languages: JsValue, gradeLevels: JsValue, subjects: JsValue)

  /** What the card shows: the bio line and the three chip lists. */
  datatype CardContent = CardContent(bio: string, languages: seq<JsValue>, grades: seq<JsValue>, subjects: seq<JsValue>)

  /** A destructured list with default `[]`: the default applies only to `undefined`;
      any other non-array value makes the later `.map` call throw, shown as `None`. */
  function ListOrDefault(v: JsValue): (r: Option<seq<JsValue>>)
    ensures r.Some? <==> v == Undefined || v.Arr?
    ensures v == Undefined ==> r == Some([])
    ensures v.Arr? ==> r == Some(v.items)
  {
    match v
    case Undefined => Some([])
    case Arr(items) => Some(items)
    case _ => None
  }

  /** The card for a user, or `None` when rendering a chip list throws. */
  function Card(user: CardUser): (r: Option<CardContent>)
    ensures r.Some? <==> ListOrDefault(user.languages).Some? && ListOrDefault(user.gradeLevels).Some?
                          && ListOrDefault(user.subjects).Some?
    ensures r.Some? ==> r.value.bio == BioExcerpt(user.bio)
  {
    match (ListOrDefault(user.languages), ListOrDefault(user.gradeLevels), ListOrDefault(user.subjects))
    case (Some(ls), Some(gs), Some(ss)) => Some(CardContent(BioExcerpt(user.bio), ls, gs, ss))
    case _ => None
  }

  /** A user without any of the three lists gets a card with three empty lists. */
  lemma AbsentListsAreEmpty(bio: JsValue)
    ensures Card(CardUser(bio, Undefined, Undefined, Undefined)) == Some(CardContent(BioExcerpt(bio), [], [], []))
  {
  }

  /** A list given as `null` is not defaulted, and the card cannot be rendered. */
  lemma NullListFails(user: CardUser)
    requires user.languages == Null || user.gradeLevels == Null || user.subjects == Null
    ensures Card(user).None?
  {
  }
}

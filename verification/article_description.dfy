/**
  The description checks that every `ArticleDescriptionControlling` conformer inherits from
  the protocol extension: the maximum length, the "too long" check and the
  "starts with a capital letter" check.

  A description is a Swift `String?`. It is modelled as an optional sequence of
  characters, one `char` per Swift `Character` (grapheme cluster), so `count` is the
  sequence length and `first` its first element. The Unicode properties that Swift's
  `Character.isLetter` and `Character.isUppercase` consult are not modelled; a
  `CharClassifier` carries the two tests, and every check takes it as a parameter.
*/
module ArticleDescriptionChecks {
  import opened Wrappers

  /** `descriptionMaxLength`. */
  const DescriptionMaxLength: int := 90

  /** The two character tests the casing check relies on. */
  datatype CharClassifier = CharClassifier(isLetter: char -> bool, isUppercase: char -> bool)

  /** The classifier calls every uppercase character a letter. */
  ghost predicate UppercaseImpliesLetter(cls: CharClassifier)
  {
    forall c :: cls.isUppercase(c) ==> cls.isLetter(c)
  }

  /** `description?.count ?? 0`. */
  function CountOrZero(description: Option<seq<char>>): nat
  {
    match description
    case Some(s) => |s|
    case None => 0
  }

  /** `description?.first`. */
  function First(description: Option<seq<char>>): Option<char>
  {
    match description
    case Some(s) => if |s| == 0 then None else Some(s[0])
    case None => None
  }

  /** `descriptionIsTooLong(_:)`. */
  function DescriptionIsTooLong(description: Option<seq<char>>): (r: bool)
    ensures description.None? ==> !r
    ensures description.Some? ==> (r <==> |description.value| >= 91)
  {
    CountOrZero(description) > DescriptionMaxLength
  }

  /** `descriptionIsUppercase(_:)`. */
  function DescriptionIsUppercase(cls: CharClassifier, description: Option<seq<char>>): (r: bool)
    ensures r ==> description.Some? && |description.value| > 0
    ensures description.Some? && |description.value| > 0 ==>
              (r <==> cls.isLetter(description.value[0]) && cls.isUppercase(description.value[0]))
  {
    match First(description)
    case Some(firstCharacter) => cls.isLetter(firstCharacter) && cls.isUppercase(firstCharacter)
    case None => false
  }

  /** `descriptionMaxLength` is 90, and it is the longest character count accepted. */
  lemma DescriptionMaxLengthIsLongestAccepted(s: seq<char>)
    ensures DescriptionMaxLength == 90
    ensures !DescriptionIsTooLong(Some(s)) <==> |s| <= DescriptionMaxLength
  {
  }

  /** The limit is inclusive: 90 characters pass, 91 do not, and no description is too
      long without being longer than 90 characters. */
  lemma TooLongBoundary(s: seq<char>)
    ensures |s| <= 90 ==> !DescriptionIsTooLong(Some(s))
    ensures |s| == 91 ==> DescriptionIsTooLong(Some(s))
    ensures !DescriptionIsTooLong(None)
  {
  }

  /** Appending to a description that is too long keeps it too long; a prefix of a
      description that is not too long is not too long either. */
  lemma TooLongMonotone(s: seq<char>, t: seq<char>)
    ensures DescriptionIsTooLong(Some(s)) ==> DescriptionIsTooLong(Some(s + t))
    ensures !DescriptionIsTooLong(Some(s + t)) ==> !DescriptionIsTooLong(Some(s))
  {
  }

  /** A missing description and an empty one never count as uppercase. */
  lemma UppercaseNeedsFirstCharacter(cls: CharClassifier)
    ensures !DescriptionIsUppercase(cls, None)
    ensures !DescriptionIsUppercase(cls, Some([]))
  {
  }

  /** The casing check reads only the first character. */
  lemma UppercaseDependsOnlyOnFirst(cls: CharClassifier, d1: Option<seq<char>>, d2: Option<seq<char>>)
    requires First(d1) == First(d2)
    ensures DescriptionIsUppercase(cls, d1) == DescriptionIsUppercase(cls, d2)
  {
  }

  /** Whatever follows the first character does not change the casing check. */
  lemma UppercaseIgnoresRest(cls: CharClassifier, c: char, rest: seq<char>)
    ensures DescriptionIsUppercase(cls, Some([c] + rest)) == DescriptionIsUppercase(cls, Some([c]))
  {
    UppercaseDependsOnlyOnFirst(cls, Some([c] + rest), Some([c]));
  }

  /** Under a classifier whose uppercase characters are all letters, the letter test adds
      nothing: the check is "the first character is uppercase". */
  lemma UppercaseWhenCapitalsAreLetters(cls: CharClassifier, description: Option<seq<char>>)
    requires UppercaseImpliesLetter(cls)
    ensures DescriptionIsUppercase(cls, description) <==>
              First(description).Some? && cls.isUppercase(First(description).value)
  {
  }

  /** A first character that the classifier calls uppercase but not a letter does not make
      the description uppercase. */
  lemma UppercaseNeedsLetter(cls: CharClassifier, c: char, rest: seq<char>)
    requires cls.isUppercase(c) && !cls.isLetter(c)
    ensures !DescriptionIsUppercase(cls, Some([c] + rest))
  {
  }

  /** The basic Latin letters, as one concrete classifier. */
  function Ascii(): (cls: CharClassifier)
    ensures UppercaseImpliesLetter(cls)
  {
    CharClassifier(
      c => 'a' <= c <= 'z' || 'A' <= c <= 'Z',
      c => 'A' <= c <= 'Z')
  }

  /** Concrete descriptions under the basic Latin classifier. */
  lemma AsciiExamples()
    ensures DescriptionIsUppercase(Ascii(), Some("Species of plant"))
    ensures !DescriptionIsUppercase(Ascii(), Some("species of plant"))
    ensures !DescriptionIsUppercase(Ascii(), Some("1984 novel by George Orwell"))
    ensures !DescriptionIsUppercase(Ascii(), Some(" Leading space"))
    ensures !DescriptionIsUppercase(Ascii(), Some("\"Quoted\""))
  {
  }
}

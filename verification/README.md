# Article description checks

A Dafny model of the description-validation part of the Wikipedia iOS app's
`ArticleDescriptionControlling` protocol (`Wikipedia/Code/Controllers/ArticleDescriptionControlling.swift`): the
`ArticleDescriptionWarningTypes` option set that reports warnings, the fixed maximum
description length of 90 characters, and the two checks every conformer inherits from the
protocol extension, `descriptionIsTooLong(_:)` and `descriptionIsUppercase(_:)`.

Files:

- `wrappers.dfy`: `Option`, standing for Swift's `Optional`.
- `warning_types.dfy` (module `ArticleDescriptionWarnings`): the option set over a
  64-bit raw value, with the two declared flags `length` (bit 0) and `casing` (bit 1), and
  the operations Swift's `OptionSet` gives it by default (union, intersection, contains,
  subtracting, insert, remove, the array-literal initializer). `Members` maps an option
  set to the set of kinds of warning it holds; every operation is tied by a lemma to the
  matching set operation, and `Members` / `FromMembers` are proved inverse.
- `article_description.dfy` (module `ArticleDescriptionChecks`): the two checks over a
  description `Option<seq<char>>` (one `char` per Swift `Character`). The
  checks are pure functions of the description. Swift's `Character.isLetter` and
  `Character.isUppercase` are passed in as a `CharClassifier`; no property of Unicode is
  assumed, except in the one lemma that states what happens when every uppercase
  character is a letter.

## Model

| member | source | states |
|---|---|---|
| ArticleDescriptionWarnings.FlagsAreDisjoint | Wikipedia/Code/Controllers/ArticleDescriptionControlling.swift:4-8 | `length` is raw value 1 and `casing` raw value 2; they share no bit, their union has raw value 3 and contains each, neither contains the other, and each stands for exactly one kind of warning |
| ArticleDescriptionWarnings.Contains | Wikipedia/Code/Controllers/ArticleDescriptionControlling.swift:4-8 | `contains(m)` holds exactly when or-ing `m` into the set leaves it unchanged, i.e. every bit of `m` is already set |
| ArticleDescriptionWarnings.ContainsIsSubset | Wikipedia/Code/Controllers/ArticleDescriptionControlling.swift:4-8 | for a member using only the declared flags, the set contains it exactly when the member's kinds of warning are a subset of the set's |
| ArticleDescriptionWarnings.Union | Wikipedia/Code/Controllers/ArticleDescriptionControlling.swift:4-8 | the union of two warning sets contains both operands |
| ArticleDescriptionWarnings.Intersection | Wikipedia/Code/Controllers/ArticleDescriptionControlling.swift:4-8 | the intersection is contained in both operands |
| ArticleDescriptionWarnings.UnionIsLeast | Wikipedia/Code/Controllers/ArticleDescriptionControlling.swift:4-8 | any set containing both operands contains their union, so the union is the least such set |
| ArticleDescriptionWarnings.IntersectionIsGreatest | Wikipedia/Code/Controllers/ArticleDescriptionControlling.swift:4-8 | any set contained in both operands is contained in their intersection |
| ArticleDescriptionWarnings.Insert | Wikipedia/Code/Controllers/ArticleDescriptionControlling.swift:4-8 | `insert` reports `inserted` exactly when the set did not already contain the member; the set afterwards is always the union of the old set and the member, unchanged when nothing was inserted; `memberAfterInsert` is always the member passed in |
| ArticleDescriptionWarnings.Subtracting | Wikipedia/Code/Controllers/ArticleDescriptionControlling.swift:4-8 | the result is part of the original set and shares no bit with the removed set |
| ArticleDescriptionWarnings.SubtractingIsGreatest | Wikipedia/Code/Controllers/ArticleDescriptionControlling.swift:4-8 | every part of the set that shares no bit with the removed set survives subtraction, so the result is the largest such part |
| ArticleDescriptionWarnings.SubtractingDisjoint | Wikipedia/Code/Controllers/ArticleDescriptionControlling.swift:4-8 | subtracting a set that shares no bit leaves the set unchanged |
| ArticleDescriptionWarnings.Remove | Wikipedia/Code/Controllers/ArticleDescriptionControlling.swift:4-8 | `remove` returns `nil` exactly when the sets share no bit, and then leaves the set unchanged; otherwise it returns exactly the (non-empty) intersection of the set and the member |
| ArticleDescriptionWarnings.RemoveSubtracts | Wikipedia/Code/Controllers/ArticleDescriptionControlling.swift:4-8 | whether or not `remove` finds something, the set afterwards is `subtracting(member)` of the set before |
| ArticleDescriptionWarnings.FromArrayLiteral | Wikipedia/Code/Controllers/ArticleDescriptionControlling.swift:4-8 | an array literal of warning sets contains every element |
| ArticleDescriptionWarnings.ArrayLiteralIsLeast | Wikipedia/Code/Controllers/ArticleDescriptionControlling.swift:4-8 | any set containing every element of an array literal contains the literal: the literal is the least such set |
| ArticleDescriptionWarnings.Members | Wikipedia/Code/Controllers/ArticleDescriptionControlling.swift:4-8 | a kind of warning is a member of a set exactly when the set contains that warning's flag |
| ArticleDescriptionWarnings.FromMembers | Wikipedia/Code/Controllers/ArticleDescriptionControlling.swift:4-8 | the set built from kinds of warning uses no bit other than the two declared flags |
| ArticleDescriptionWarnings.MembersOfFromMembers | Wikipedia/Code/Controllers/ArticleDescriptionControlling.swift:4-8 | building a set from kinds of warning and reading its members back gives the same kinds |
| ArticleDescriptionWarnings.FromMembersOfMembers | Wikipedia/Code/Controllers/ArticleDescriptionControlling.swift:4-8 | a set using only the declared flags is rebuilt exactly from its members |
| ArticleDescriptionWarnings.FlagOfUnion | Wikipedia/Code/Controllers/ArticleDescriptionControlling.swift:4-8 | a flag is in a union exactly when it is in one of the operands |
| ArticleDescriptionWarnings.FlagOfIntersection | Wikipedia/Code/Controllers/ArticleDescriptionControlling.swift:4-8 | a flag is in an intersection exactly when it is in both operands |
| ArticleDescriptionWarnings.FlagOfSubtracting | Wikipedia/Code/Controllers/ArticleDescriptionControlling.swift:4-8 | a flag survives subtraction exactly when it was in the set and not in the removed set |
| ArticleDescriptionWarnings.MembersOfUnion | Wikipedia/Code/Controllers/ArticleDescriptionControlling.swift:4-8 | the members of a union and of an intersection are the union and intersection of the members |
| ArticleDescriptionWarnings.MembersOfInsertRemove | Wikipedia/Code/Controllers/ArticleDescriptionControlling.swift:4-8 | inserting adds the member's kinds of warning; removing takes them away, and the value `remove` returns holds the kinds common to the set and the member |
| ArticleDescriptionWarnings.MembersOfArrayLiteral | Wikipedia/Code/Controllers/ArticleDescriptionControlling.swift:4-8 | a kind of warning is in an array literal exactly when it is in one of its elements |
| ArticleDescriptionChecks.DescriptionMaxLengthIsLongestAccepted | Wikipedia/Code/Controllers/ArticleDescriptionControlling.swift:29 | `descriptionMaxLength` is 90, and a description is accepted exactly when its character count is at most that constant |
| ArticleDescriptionChecks.DescriptionIsTooLong | Wikipedia/Code/Controllers/ArticleDescriptionControlling.swift:29-34 | a missing description is never too long; a present one is too long exactly when it has 91 characters or more |
| ArticleDescriptionChecks.TooLongBoundary | Wikipedia/Code/Controllers/ArticleDescriptionControlling.swift:29-34 | the limit is inclusive: any description of at most 90 characters passes, one of 91 does not, and a missing description passes |
| ArticleDescriptionChecks.TooLongMonotone | Wikipedia/Code/Controllers/ArticleDescriptionControlling.swift:31-34 | appending text to a too-long description keeps it too long; any prefix of an acceptable description is acceptable |
| ArticleDescriptionChecks.DescriptionIsUppercase | Wikipedia/Code/Controllers/ArticleDescriptionControlling.swift:36-44 | the check holds only of a present, non-empty description, and then exactly when its first character is both a letter and uppercase |
| ArticleDescriptionChecks.UppercaseNeedsFirstCharacter | Wikipedia/Code/Controllers/ArticleDescriptionControlling.swift:37-43 | a missing description and the empty description are not uppercase |
| ArticleDescriptionChecks.UppercaseDependsOnlyOnFirst | Wikipedia/Code/Controllers/ArticleDescriptionControlling.swift:37-39 | two descriptions with the same first character (or both without one) get the same answer |
| ArticleDescriptionChecks.UppercaseIgnoresRest | Wikipedia/Code/Controllers/ArticleDescriptionControlling.swift:37-39 | the characters after the first never change the answer |
| ArticleDescriptionChecks.UppercaseWhenCapitalsAreLetters | Wikipedia/Code/Controllers/ArticleDescriptionControlling.swift:37-40 | when every uppercase character is a letter, the check is exactly "the first character is uppercase" |
| ArticleDescriptionChecks.UppercaseNeedsLetter | Wikipedia/Code/Controllers/ArticleDescriptionControlling.swift:37-40 | a first character that is uppercase but not a letter gives false, whatever follows |
| ArticleDescriptionChecks.AsciiExamples | Wikipedia/Code/Controllers/ArticleDescriptionControlling.swift:36-44 | with basic Latin letters: "Species of plant" is uppercase; a lower-case start, a leading digit, a leading space and a leading quotation mark are not |

## Left out

- The Unicode tables behind Swift's `Character.isLetter` and `Character.isUppercase`: they are parameters (`CharClassifier`). `Ascii` is one concrete classifier, for examples only.
- Swift's grapheme-cluster segmentation: one `char` stands for one `Character`, so `count` is the sequence length.
- `publishDescription` and `currentDescription`: asynchronous, network-backed requirements with completion handlers and no body in the protocol.
- `errorTextFromError`, `learnMoreViewControllerWithTheme` and `articleDisplayTitle`: localisation, UI construction, and a pass-through to the article object.
- `warningTypesForDescription`: only declared in the protocol; how a conformer combines the two checks into warnings is not part of this model.
- `ArticleDescriptionPublishResult`: a plain record returned by publishing, which is left out.
- `Wikipedia/Code/ArticleViewController+References.swift`: UIKit presentation, floating-point layout and web-view callbacks.
- `WMF Framework/CacheProviderHelper.swift` (persisted and fallback HTTP response lookup): a separate caching component, not part of the description checks; it is not part of this model.
- Integer overflow of `count`: a Swift `Int` character count cannot exceed the limit of memory, so `count` is an unbounded `nat`.

/** The part of the Unicode character database that the reversible tokenizer
    consults through java.lang.Character, kept abstract: the model never
    depends on a concrete table. */
module Unicode {

  /** A Unicode code point, as String.codePoints() yields it. */
  type CodePoint = c: int | 0 <= c <= 0x10FFFF

  /** U+0020, the half-space the tokenizer uses to mark boundaries. */
  const Space: CodePoint := 0x20

  /** U+E302, the private-use marker placed before a de-capitalized letter. */
  const Cap: CodePoint := 0xE302

  /** The thirty general categories Character.getType distinguishes. */
  datatype Category =
    | UppercaseLetter | LowercaseLetter | TitlecaseLetter | ModifierLetter | OtherLetter
    | NonSpacingMark | EnclosingMark | CombiningSpacingMark
    | DecimalDigitNumber | LetterNumber | OtherNumber
    | MathSymbol | CurrencySymbol | ModifierSymbol | OtherSymbol
    | DashPunctuation | StartPunctuation | EndPunctuation | ConnectorPunctuation
    | OtherPunctuation | InitialQuotePunctuation | FinalQuotePunctuation
    | SpaceSeparator | LineSeparator | ParagraphSeparator
    | Unassigned | Control | Format | PrivateUse | Surrogate

  /** The character-database queries the tokenizer makes, as uninterpreted
      total functions. */
  datatype Tables = Tables(
    getType: CodePoint -> Category,
    isUpperCase: CodePoint -> bool,
    toUpperCase: CodePoint -> CodePoint,
    toLowerCase: CodePoint -> CodePoint)

  /** Punctuation, separators, and the unassigned, control, format,
      private-use and surrogate categories: the ones ranked 2 or less. */
  predicate LowRank(c: Category)
  {
    || c.DashPunctuation? || c.StartPunctuation? || c.EndPunctuation?
    || c.ConnectorPunctuation? || c.OtherPunctuation?
    || c.InitialQuotePunctuation? || c.FinalQuotePunctuation?
    || c.SpaceSeparator? || c.LineSeparator? || c.ParagraphSeparator?
    || c.Unassigned? || c.Control? || c.Format? || c.PrivateUse? || c.Surrogate?
  }

  /** Token-building rank of a category: letters and marks 7, numbers 5,
      symbols 3, punctuation 1, separators -1, everything else -3. */
  function CategoryPriority(c: Category): (p: int)
    ensures p in {7, 5, 3, 1, -1, -3}
    ensures p > 2 <==> !LowRank(c)
  {
    match c
    case UppercaseLetter | LowercaseLetter | TitlecaseLetter | ModifierLetter | OtherLetter => 7
    case NonSpacingMark | EnclosingMark | CombiningSpacingMark => 7
    case DecimalDigitNumber | LetterNumber | OtherNumber => 5
    case MathSymbol | CurrencySymbol | ModifierSymbol | OtherSymbol => 3
    case DashPunctuation | StartPunctuation | EndPunctuation | ConnectorPunctuation
      | OtherPunctuation | InitialQuotePunctuation | FinalQuotePunctuation => 1
    case SpaceSeparator | LineSeparator | ParagraphSeparator => -1
    case Unassigned | Control | Format | PrivateUse | Surrogate => -3
  }

  /** The rank of a code point, looked up through its category. */
  function CharacterPriority(u: Tables, c: CodePoint): (p: int)
    ensures p in {7, 5, 3, 1, -1, -3}
    ensures p > 2 <==> !LowRank(u.getType(c))
  {
    CategoryPriority(u.getType(c))
  }
}

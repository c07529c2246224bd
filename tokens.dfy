/**
 * Tokens produced by the Apex lexical parser.
 *
 * The Java code has an abstract base token with one subclass per kind (word,
 * literal, comment, whitespace, newline, special character). Here one class
 * `Token` carries the base fields and a `kind` that stands for the subclass
 * together with the subclass's own fields (literal type, comment type, the
 * word flags).
 */
module Tokens {
  import opened Wrappers

  /** Literal kinds; UNDEFINED is the Java field default. */
  datatype LiteralType = UNDEFINED | STRING | NUMBER

  /** Comment kinds; UNDEFINED is the Java field default. */
  datatype CommentType = UNDEFINED | SINGLE_LINE | MULTI_LINE

  /** The subclass of a token and that subclass's own fields. */
  datatype Kind =
    | Word(reservedKeyword: bool, systemType: bool)
    | Literal(literalType: LiteralType)
    | Comment(commentType: CommentType)
    | Whitespace
    | Newline
    | SpecialChar

  /** A snapshot of a token's observable fields, used by the pure specifications. */
  datatype TokenView = TokenView(kind: Kind, value: string, originalValue: string, lineNumber: int)

  /** Kinds whose display string is defined in the modelled sources. */
  predicate HasDisplay(k: Kind) {
    k.Word? || k.Literal? || k.Comment? || k.Newline?
  }

  /** The name Java's enum `toString` gives a literal type. */
  function LiteralTypeName(t: LiteralType): string {
    match t
    case UNDEFINED => "UNDEFINED"
    case STRING => "STRING"
    case NUMBER => "NUMBER"
  }

  /** The name Java's enum `toString` gives a comment type. */
  function CommentTypeName(t: CommentType): string {
    match t
    case UNDEFINED => "UNDEFINED"
    case SINGLE_LINE => "SINGLE_LINE"
    case MULTI_LINE => "MULTI_LINE"
  }

  /** `String.replace(char, char)`: every `from` becomes `to`. */
  function ReplaceChar(s: string, from: char, to: char): (r: string)
    ensures |r| == |s|
    ensures forall i :: 0 <= i < |s| ==> r[i] == if s[i] == from then to else s[i]
  {
    if s == [] then [] else [if s[0] == from then to else s[0]] + ReplaceChar(s[1..], from, to)
  }

  /** The newline rendering: CR shown as `r`, LF shown as `n`. */
  function RenderLineBreaks(v: string): (r: string)
    ensures |r| == |v|
    ensures forall i :: 0 <= i < |r| ==> r[i] != '\r' && r[i] != '\n'
    ensures forall i :: 0 <= i < |v| ==>
      r[i] == (if v[i] == '\r' then 'r' else if v[i] == '\n' then 'n' else v[i])
  {
    ReplaceChar(ReplaceChar(v, '\r', 'r'), '\n', 'n')
  }

  /** The debug display string of a token, by kind. */
  function Display(kind: Kind, value: string): string
    requires HasDisplay(kind)
  {
    match kind
    case Word(_, _) => "WORD[" + value + "]"
    case Literal(t) => "LITERAL(" + LiteralTypeName(t) + ")[" + value + "]"
    case Comment(t) => "COMMENT(" + CommentTypeName(t) + ")[" + value + "]"
    case Newline => "NEWLINE[" + RenderLineBreaks(value) + "]"
  }

  /** A token. `value` is replaced by the combiner; the rest is fixed at construction. */
  class Token {
    var value: string
    const originalValue: string
    const lineNumber: int
    var note: Option<string>
    var kind: Kind

    constructor Word(value: string, lineNumber: int)
      ensures this.value == value && originalValue == value && this.lineNumber == lineNumber
      ensures kind == Kind.Word(false, false) && note == None
    {
      this.value := value;
      this.originalValue := value;
      this.lineNumber := lineNumber;
      this.note := None;
      this.kind := Kind.Word(false, false);
    }

    constructor Literal(value: string, lineNumber: int, literalType: LiteralType)
      ensures this.value == value && originalValue == value && this.lineNumber == lineNumber
      ensures kind == Kind.Literal(literalType) && note == None
    {
      this.value := value;
      this.originalValue := value;
      this.lineNumber := lineNumber;
      this.note := None;
      this.kind := Kind.Literal(literalType);
    }

    constructor Comment(value: string, lineNumber: int, commentType: CommentType)
      ensures this.value == value && originalValue == value && this.lineNumber == lineNumber
      ensures kind == Kind.Comment(commentType) && note == None
    {
      this.value := value;
      this.originalValue := value;
      this.lineNumber := lineNumber;
      this.note := None;
      this.kind := Kind.Comment(commentType);
    }

    constructor Newline(value: string, lineNumber: int)
      ensures this.value == value && originalValue == value && this.lineNumber == lineNumber
      ensures kind == Kind.Newline && note == None
    {
      this.value := value;
      this.originalValue := value;
      this.lineNumber := lineNumber;
      this.note := None;
      this.kind := Kind.Newline;
    }

    constructor Whitespace(value: string, lineNumber: int)
      ensures this.value == value && originalValue == value && this.lineNumber == lineNumber
      ensures kind == Kind.Whitespace && note == None
    {
      this.value := value;
      this.originalValue := value;
      this.lineNumber := lineNumber;
      this.note := None;
      this.kind := Kind.Whitespace;
    }

    constructor SpecialChar(value: string, lineNumber: int)
      ensures this.value == value && originalValue == value && this.lineNumber == lineNumber
      ensures kind == Kind.SpecialChar && note == None
    {
      this.value := value;
      this.originalValue := value;
      this.lineNumber := lineNumber;
      this.note := None;
      this.kind := Kind.SpecialChar;
    }

    /** The fields a reader of the token can observe. */
    function View(): (v: TokenView)
      reads this
      ensures v.value == value && v.originalValue == originalValue
      ensures v.lineNumber == lineNumber && v.kind == kind
    {
      TokenView(kind, value, originalValue, lineNumber)
    }

    /** Replaces the current value and nothing else. */
    method SetValue(arg: string)
      modifies this
      ensures value == arg
      ensures kind == old(kind) && note == old(note)
    {
      value := arg;
    }

    /** Appends to the note; a missing note reads as "null", as Java's string concatenation does. */
    method AddNote(arg: string)
      modifies this
      ensures note == Some(NoteText(old(note)) + arg)
      ensures value == old(value) && kind == old(kind)
    {
      note := Some(NoteText(note) + arg);
    }

    method SetReservedKeyword(reservedKeyword: bool)
      requires kind.Word?
      modifies this
      ensures kind == old(kind).(reservedKeyword := reservedKeyword)
      ensures value == old(value) && note == old(note)
    {
      kind := kind.(reservedKeyword := reservedKeyword);
    }

    method SetSystemType(systemType: bool)
      requires kind.Word?
      modifies this
      ensures kind == old(kind).(systemType := systemType)
      ensures value == old(value) && note == old(note)
    {
      kind := kind.(systemType := systemType);
    }

    method SetLiteralType(arg: LiteralType)
      requires kind.Literal?
      modifies this
      ensures kind == Kind.Literal(arg)
      ensures value == old(value) && note == old(note)
    {
      kind := Kind.Literal(arg);
    }

    method SetCommentType(arg: CommentType)
      requires kind.Comment?
      modifies this
      ensures kind == Kind.Comment(arg)
      ensures value == old(value) && note == old(note)
    {
      kind := Kind.Comment(arg);
    }

    /** `getDisplayString`, defined for word, literal, comment and newline tokens. */
    function DisplayString(): (r: string)
      reads this
      requires HasDisplay(kind)
      ensures kind.Word? ==> |r| == |value| + 6 && r[..5] == "WORD[" && r[5..|r| - 1] == value && r[|r| - 1] == ']'
      ensures kind.Newline? ==> |r| == |value| + 9 && r[..8] == "NEWLINE[" && r[|r| - 1] == ']'
      ensures kind.Newline? ==> forall i :: 0 <= i < |r| ==> r[i] != '\r' && r[i] != '\n'
      ensures kind.Newline? ==> r[8..|r| - 1] == RenderLineBreaks(value)
    {
      Display(kind, value)
    }
  }

  /** The text of a note for concatenation: Java renders `null` as "null". */
  function NoteText(note: Option<string>): string {
    match note
    case None => "null"
    case Some(s) => s
  }

  /** The views of a list of tokens, element by element. */
  function Views(ts: seq<Token>): (vs: seq<TokenView>)
    reads ts
    ensures |vs| == |ts|
    ensures forall i :: 0 <= i < |ts| ==> vs[i] == ts[i].View()
  {
    seq(|ts|, i reads ts requires 0 <= i < |ts| => ts[i].View())
  }

  /** No token object occurs twice in the list. */
  predicate Distinct(ts: seq<Token>) {
    forall i, j :: 0 <= i < j < |ts| ==> ts[i] != ts[j]
  }

  /** Appending a token appends its view. */
  lemma ViewsAppend(ts: seq<Token>, t: Token)
    ensures Views(ts + [t]) == Views(ts) + [t.View()]
  {
  }

  /** A CR LF newline token displays as `NEWLINE[rn]`. */
  lemma CrLfDisplay()
    ensures Display(Newline, "\r\n") == "NEWLINE[rn]"
  {
    assert ReplaceChar("\r\n", '\r', 'r') == "r\n";
    assert ReplaceChar("r\n", '\n', 'n') == "rn";
  }

  /** The display string of a literal determines its literal type and its value. */
  lemma LiteralDisplayInjective(t1: LiteralType, v1: string, t2: LiteralType, v2: string)
    requires Display(Literal(t1), v1) == Display(Literal(t2), v2)
    ensures t1 == t2 && v1 == v2
  {
    var d := Display(Literal(t1), v1);
    var n1, n2 := LiteralTypeName(t1), LiteralTypeName(t2);
    assert d == "LITERAL(" + n1 + ")[" + v1 + "]" == "LITERAL(" + n2 + ")[" + v2 + "]";
    // The three type names start with three different letters.
    assert n1[0] == d[8] == n2[0];
    assert v1 == d[10 + |n1|..|d| - 1] == v2;
  }

  /** The display string of a comment determines its comment type and its value. */
  lemma CommentDisplayInjective(t1: CommentType, v1: string, t2: CommentType, v2: string)
    requires Display(Comment(t1), v1) == Display(Comment(t2), v2)
    ensures t1 == t2 && v1 == v2
  {
    var d := Display(Comment(t1), v1);
    var n1, n2 := CommentTypeName(t1), CommentTypeName(t2);
    assert d == "COMMENT(" + n1 + ")[" + v1 + "]" == "COMMENT(" + n2 + ")[" + v2 + "]";
    // The three type names start with three different letters.
    assert n1[0] == d[8] == n2[0];
    assert v1 == d[10 + |n1|..|d| - 1] == v2;
  }
}

/**
 * The character source of the lexer: a `java.io.BufferedReader` over a string,
 * modelled as the text and a cursor, with the one-position mark the lexer uses
 * for its single character of pushback.
 */
module Reading {
  import opened Wrappers

  class Reader {
    const text: string
    var pos: nat
    var markPos: nat

    ghost predicate Valid()
      reads this
    {
      pos <= |text| && markPos <= |text|
    }

    constructor (text: string)
      ensures Valid() && this.text == text && pos == 0
    {
      this.text := text;
      this.pos := 0;
      this.markPos := 0;
    }

    /** Next character and advance, or None (Java's -1) at end of input. */
    method Read() returns (c: Option<char>)
      requires Valid()
      modifies this`pos
      ensures Valid()
      ensures old(pos) < |text| ==> c == Some(text[old(pos)]) && pos == old(pos) + 1
      ensures old(pos) == |text| ==> c == None && pos == old(pos)
    {
      if pos < |text| {
        c := Some(text[pos]);
        pos := pos + 1;
      } else {
        c := None;
      }
    }

    /** Remembers the current position. */
    method Mark()
      requires Valid()
      modifies this`markPos
      ensures Valid() && markPos == pos
    {
      markPos := pos;
    }

    /** Returns to the remembered position. */
    method Reset()
      requires Valid()
      modifies this`pos
      ensures Valid() && pos == markPos
    {
      pos := markPos;
    }
  }
}

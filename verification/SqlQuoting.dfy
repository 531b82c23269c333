/** Quoting of SQL identifiers and literals, with the lexer that reads it back: `quoteIdent` of
    e2e/contract/fixtures.ts, `qIdent` and `qLiteral` of e2e/lib/testDataLifecycle.ts. */
module SqlQuoting {
  import opened Options

  /** Every quote character of the text, written twice. */
  function Doubled(s: string, q: char): string {
    if s == "" then ""
    else (if s[0] == q then [q, q] else [s[0]]) + Doubled(s[1..], q)
  }

  /** The quoted form: with a double quote the identifiers of PostgreSQL and SQLite (the delimited
      identifier of ISO/IEC 9075-2, section 5.2), with a backtick those of MySQL, with a single quote
      string literals. */
  function Quote(s: string, q: char): string { [q] + Doubled(s, q) + [q] }

  /** Reads up to the closing quote: the text read and what follows it. */
  function LexBody(input: string, q: char): Option<(string, string)> {
    if input == "" then None
    else if input[0] != q then
      match LexBody(input[1..], q)
      case None => None
      case Some((text, rest)) => Some(([input[0]] + text, rest))
    else if |input| > 1 && input[1] == q then
      match LexBody(input[2..], q)
      case None => None
      case Some((text, rest)) => Some(([q] + text, rest))
    else Some(("", input[1..]))
  }

  /** One delimited token at the front of the input. */
  function Lex(input: string, q: char): Option<(string, string)> {
    if input != "" && input[0] == q then LexBody(input[1..], q) else None
  }

  lemma {:induction false} LexBodyReadsBack(s: string, q: char, rest: string)
    requires rest == "" || rest[0] != q
    ensures LexBody(Doubled(s, q) + [q] + rest, q) == Some((s, rest))
  {
    var input := Doubled(s, q) + [q] + rest;
    if s == "" {
      assert input == [q] + rest && input[1..] == rest;
    } else {
      var front := if s[0] == q then [q, q] else [s[0]];
      var tail := Doubled(s[1..], q) + [q] + rest;
      assert input == front + tail && input[|front|..] == tail;
      LexBodyReadsBack(s[1..], q, rest);
      assert [s[0]] + s[1..] == s;
    }
  }

  /** The input is the text, doubled and closed, and what follows does not prolong it. */
  predicate ReadsAs(input: string, q: char, text: string, rest: string) {
    input == Doubled(text, q) + [q] + rest && (rest == "" || rest[0] != q)
  }

  lemma ReadsOneMore(front: string, c: char, input: string, q: char, text: string, rest: string)
    requires ReadsAs(input, q, text, rest) && front == if c == q then [q, q] else [c]
    ensures ReadsAs(front + input, q, [c] + text, rest)
  {
    assert ([c] + text)[1..] == text;
    assert front + (Doubled(text, q) + [q] + rest) == front + Doubled(text, q) + [q] + rest;
  }

  lemma {:induction false} LexBodyWasDoubled(input: string, q: char)
    ensures LexBody(input, q).Some? ==> ReadsAs(input, q, LexBody(input, q).value.0, LexBody(input, q).value.1)
    decreases |input|
  {
    if LexBody(input, q).Some? {
      var (text, rest) := LexBody(input, q).value;
      if input[0] != q {
        LexBodyWasDoubled(input[1..], q);
        ReadsOneMore(input[..1], input[0], input[1..], q, text[1..], rest);
        assert input[..1] + input[1..] == input;
      } else if |input| > 1 && input[1] == q {
        LexBodyWasDoubled(input[2..], q);
        ReadsOneMore(input[..2], q, input[2..], q, text[1..], rest);
        assert input[..2] + input[2..] == input;
      } else {
        assert input == Doubled("", q) + [q] + rest;
      }
    }
  }

  /** Quoting is self-delimiting: for every text and everything that may follow, the lexer reads the
      quoted text back exactly when what follows does not start with the quote character. */
  lemma QuoteReadsBack(s: string, q: char, rest: string)
    ensures Lex(Quote(s, q) + rest, q) == Some((s, rest)) <==> rest == "" || rest[0] != q
  {
    var input := Quote(s, q) + rest;
    assert input[1..] == Doubled(s, q) + [q] + rest;
    if rest == "" || rest[0] != q {
      LexBodyReadsBack(s, q, rest);
    } else {
      LexBodyWasDoubled(input[1..], q);
    }
  }

  /** Nothing but a quoted text is ever read: the lexer and the quoting are inverse to each other. */
  lemma LexedTextWasQuoted(input: string, q: char, s: string, rest: string)
    ensures Lex(input, q) == Some((s, rest)) <==> input == Quote(s, q) + rest && (rest == "" || rest[0] != q)
  {
    if Lex(input, q) == Some((s, rest)) {
      LexBodyWasDoubled(input[1..], q);
      assert input == [q] + input[1..];
      assert [q] + (Doubled(s, q) + [q] + rest) == Quote(s, q) + rest;
    } else if input == Quote(s, q) + rest {
      QuoteReadsBack(s, q, rest);
    }
  }

  /** So no two texts, followed by anything that cannot prolong them, are confused. */
  lemma QuotingIsInjective(s: string, s': string, q: char, rest: string, rest': string)
    requires rest == "" || rest[0] != q
    requires rest' == "" || rest'[0] != q
    requires Quote(s, q) + rest == Quote(s', q) + rest'
    ensures s == s' && rest == rest'
  {
    QuoteReadsBack(s, q, rest);
    QuoteReadsBack(s', q, rest');
  }
}

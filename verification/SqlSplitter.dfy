/**
 * The migration script splitter (src/external/migrate.py).
 *
 * `Split` is the reference meaning: an index-based lexer that consumes one whole lexeme at a time
 * (a quoted literal, a comment, or a single character) and cuts after every `;` lexeme.
 * `SplitSqlStatements` is the source's loop: four mode flags, one character of lookahead, and a
 * buffer that is flushed at each boundary.
 */
module SqlSplitter {
  import opened Text

  // ---------------------------------------------------------------- reference lexer

  /** One past the newline that ends a line comment, or the end of the script. */
  function LineEnd(s: string, i: nat): (r: nat)
    requires i <= |s|
    ensures i <= r <= |s|
    decreases |s| - i
  {
    if i == |s| then i else if s[i] == '\n' then i + 1 else LineEnd(s, i + 1)
  }

  /** One past the first closing marker of a block comment, or the end of the script. */
  function BlockEnd(s: string, i: nat): (r: nat)
    requires i <= |s|
    ensures i <= r <= |s|
    decreases |s| - i
  {
    if i + 1 >= |s| then |s|
    else if s[i] == '*' && s[i + 1] == '/' then i + 2
    else BlockEnd(s, i + 1)
  }

  /** One past the quote that closes a literal, doubled quotes skipped, or the end of the script. */
  function QuoteEnd(s: string, i: nat, q: char): (r: nat)
    requires i <= |s|
    ensures i <= r <= |s|
    decreases |s| - i
  {
    if i == |s| then i
    else if s[i] != q then QuoteEnd(s, i + 1, q)
    else if i + 1 < |s| && s[i + 1] == q then QuoteEnd(s, i + 2, q)
    else i + 1
  }

  predicate PairAt(s: string, i: nat, a: char, b: char) {
    i + 1 < |s| && s[i] == a && s[i + 1] == b
  }

  /** One past the lexeme that starts at `i`. */
  function LexemeEnd(s: string, i: nat): (r: nat)
    requires i < |s|
    ensures i < r <= |s|
  {
    if PairAt(s, i, '-', '-') then LineEnd(s, i + 2)
    else if PairAt(s, i, '/', '*') then BlockEnd(s, i + 2)
    else if s[i] == '\'' || s[i] == '"' then QuoteEnd(s, i + 1, s[i])
    else i + 1
  }

  /** The positions just after each statement-ending semicolon, lexing from `i`. */
  function Cuts(s: string, i: nat): seq<nat>
    requires i <= |s|
    decreases |s| - i
  {
    if i == |s| then []
    else if s[i] == ';' then [i + 1] + Cuts(s, i + 1)
    else Cuts(s, LexemeEnd(s, i))
  }

  predicate Increasing(from: nat, cuts: seq<nat>, to: nat)
    decreases |cuts|
  {
    if cuts == [] then from <= to
    else from < cuts[0] && Increasing(cuts[0], cuts[1..], to)
  }

  /** The untrimmed pieces between the cuts, the last one being what follows the last cut. */
  function Pieces(s: string, from: nat, cuts: seq<nat>): (r: seq<string>)
    requires Increasing(from, cuts, |s|)
    ensures |r| == |cuts| + 1
    decreases |cuts|
  {
    if cuts == [] then [s[from..]]
    else
      IncreasingBounded(from, cuts, |s|);
      [s[from..cuts[0]]] + Pieces(s, cuts[0], cuts[1..])
  }

  lemma {:induction false} IncreasingBounded(from: nat, cuts: seq<nat>, to: nat)
    requires Increasing(from, cuts, to)
    ensures from <= to && (cuts != [] ==> cuts[0] <= to)
    decreases |cuts|
  {
    if cuts != [] {
      IncreasingBounded(cuts[0], cuts[1..], to);
    }
  }

  lemma {:induction false} CutsIncrease(s: string, i: nat, from: nat)
    requires from <= i <= |s|
    ensures Increasing(from, Cuts(s, i), |s|)
    decreases |s| - i
  {
    if i < |s| {
      if s[i] == ';' {
        CutsIncrease(s, i + 1, i + 1);
      } else {
        CutsIncrease(s, LexemeEnd(s, i), from);
      }
    }
  }

  function TrimmedPieces(pieces: seq<string>): seq<string> {
    if pieces == [] then []
    else (if Trim(pieces[0]) == [] then [] else [Trim(pieces[0])]) + TrimmedPieces(pieces[1..])
  }

  function RawPieces(s: string): (r: seq<string>)
    ensures r != []
  {
    CutsIncrease(s, 0, 0);
    Pieces(s, 0, Cuts(s, 0))
  }

  /** The meaning of a script: its pieces, trimmed, blank ones left out. */
  function Split(s: string): seq<string> {
    TrimmedPieces(RawPieces(s))
  }

  // ---------------------------------------------------------------- the source's loop

  datatype Mode = Code | Single | Double | Line | Block

  function ModeOf(single: bool, double: bool, line: bool, block: bool): Mode {
    if line then Line else if block then Block else if single then Single else if double then Double else Code
  }

  /** Where code resumes for a lexer that stands at `i` in `mode`. */
  function Resume(s: string, i: nat, mode: Mode): (r: nat)
    requires i <= |s|
    ensures i <= r <= |s|
  {
    match mode
    case Code => i
    case Single => QuoteEnd(s, i, '\'')
    case Double => QuoteEnd(s, i, '"')
    case Line => LineEnd(s, i)
    case Block => BlockEnd(s, i)
  }

  lemma {:induction false} TrimmedAppend(a: seq<string>, b: seq<string>)
    ensures TrimmedPieces(a + b) == TrimmedPieces(a) + TrimmedPieces(b)
  {
    if a == [] {
      assert a + b == b;
    } else {
      assert (a + b)[1..] == a[1..] + b;
      TrimmedAppend(a[1..], b);
    }
  }

  /** What the loop still owes: the pieces from `start`, code resuming at `resume`. */
  function Owed(s: string, start: nat, resume: nat): seq<string>
    requires start <= resume <= |s|
  {
    CutsIncrease(s, resume, start);
    TrimmedPieces(Pieces(s, start, Cuts(s, resume)))
  }

  /** Lexing past a lexeme that is no semicolon leaves the debt unchanged. */
  lemma OwedPastLexeme(s: string, start: nat, i: nat)
    requires start <= i < |s| && s[i] != ';'
    ensures Owed(s, start, i) == Owed(s, start, LexemeEnd(s, i))
  {
  }

  /** The buffer flush: blank text is dropped. */
  function Flush(statements: seq<string>, text: string): seq<string> {
    if Trim(text) == [] then statements else statements + [Trim(text)]
  }

  lemma OwedAtCut(s: string, statements: seq<string>, start: nat, i: nat)
    requires start <= i < |s| && s[i] == ';'
    ensures statements + Owed(s, start, i) == Flush(statements, s[start..i + 1]) + Owed(s, i + 1, i + 1)
  {
    CutsIncrease(s, i, start);
    CutsIncrease(s, i + 1, i + 1);
    assert Cuts(s, i)[1..] == Cuts(s, i + 1);
    var owed := Owed(s, i + 1, i + 1);
    var text := s[start..i + 1];
    var paid := if Trim(text) == [] then [] else [Trim(text)];
    assert Pieces(s, start, Cuts(s, i)) == [text] + Pieces(s, i + 1, Cuts(s, i + 1));
    assert Owed(s, start, i) == paid + owed;
    assert statements + (paid + owed) == (statements + paid) + owed;
  }

  lemma OwedAtEnd(s: string, statements: seq<string>, start: nat)
    requires start <= |s|
    ensures statements + Owed(s, start, |s|) == Flush(statements, s[start..])
  {
    var rest := [s[start..]];
    assert Pieces(s, start, Cuts(s, |s|)) == rest;
    assert rest[1..] == [] && TrimmedPieces(rest[1..]) == [];
    assert TrimmedPieces(rest) == if Trim(rest[0]) == [] then [] else [Trim(rest[0])];
  }

  lemma SliceGrows(s: string, start: nat, i: nat, width: nat)
    requires start <= i && i + width <= |s|
    ensures s[start..i] + s[i..i + width] == s[start..i + width]
  {
  }

  predicate Exclusive(single: bool, double: bool, line: bool, block: bool) {
    && (line ==> !block && !single && !double)
    && (block ==> !single && !double)
    && (single ==> !double)
  }

  /** The branch cascade of the loop body: how many characters to take and the flags afterwards. */
  method Advance(script: string, index: nat, single: bool, double: bool, line: bool, block: bool)
    returns (width: nat, single': bool, double': bool, line': bool, block': bool, boundary: bool)
    requires index < |script| && Exclusive(single, double, line, block)
    ensures 1 <= width <= 2 && index + width <= |script|
    ensures Exclusive(single', double', line', block')
    ensures boundary <==> ModeOf(single, double, line, block) == Code && script[index] == ';'
    ensures boundary ==> width == 1 && ModeOf(single', double', line', block') == Code
    ensures !boundary ==>
              Resume(script, index + width, ModeOf(single', double', line', block')) ==
              if ModeOf(single, double, line, block) == Code then LexemeEnd(script, index)
              else Resume(script, index, ModeOf(single, double, line, block))
  {
    width, single', double', line', block', boundary := 1, single, double, line, block, false;
    var here := script[index];
    var following := if index + 1 < |script| then [script[index + 1]] else [];
    if line {
      if here == '\n' {
        line' := false;
      }
    } else if block {
      if here == '*' && following == ['/'] {
        width := 2;
        block' := false;
      }
    } else if single {
      if here == '\'' && following == ['\''] {
        width := 2;
      } else if here == '\'' {
        single' := false;
      }
    } else if double {
      if here == '"' && following == ['"'] {
        width := 2;
      } else if here == '"' {
        double' := false;
      }
    } else if here == '-' && following == ['-'] {
      width := 2;
      line' := true;
    } else if here == '/' && following == ['*'] {
      width := 2;
      block' := true;
    } else if here == '\'' {
      single' := true;
    } else if here == '"' {
      double' := true;
    } else if here == ';' {
      boundary := true;
    }
  }

  /** The loop of `_split_sql_statements` computes the reference meaning of every script. */
  method SplitSqlStatements(script: string) returns (statements: seq<string>)
    ensures statements == Split(script)
  {
    statements := [];
    var current: string := [];
    var inSingle, inDouble, inLineComment, inBlockComment := false, false, false, false;
    var index := 0;
    ghost var start, resume := 0, 0;
    while index < |script|
      invariant 0 <= start <= index <= |script|
      invariant current == script[start..index]
      invariant Exclusive(inSingle, inDouble, inLineComment, inBlockComment)
      invariant resume == Resume(script, index, ModeOf(inSingle, inDouble, inLineComment, inBlockComment))
      invariant statements + Owed(script, start, resume) == Split(script)
      decreases |script| - index
    {
      ghost var inCode := ModeOf(inSingle, inDouble, inLineComment, inBlockComment) == Code;
      var width, boundary;
      width, inSingle, inDouble, inLineComment, inBlockComment, boundary :=
        Advance(script, index, inSingle, inDouble, inLineComment, inBlockComment);
      current := current + script[index..index + width];
      SliceGrows(script, start, index, width);
      if boundary {
        OwedAtCut(script, statements, start, index);
        assert current == script[start..index + 1];
        ghost var flushed := Flush(statements, current);
        var statement := Trim(current);
        if statement != [] {
          statements := statements + [statement];
        }
        assert statements == flushed;
        current := [];
        start, resume := index + 1, index + 1;
      } else if inCode {
        OwedPastLexeme(script, start, index);
        resume := LexemeEnd(script, index);
      }
      index := index + width;
    }
    assert current == script[start..];
    OwedAtEnd(script, statements, start);
    var remainder := Trim(current);
    if remainder != [] {
      statements := statements + [remainder];
    }
  }
}

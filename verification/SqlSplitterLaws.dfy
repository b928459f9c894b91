/** Laws of the splitter: nothing is lost, and splitting the joined output gives it back. */
module SqlSplitterLaws {
  import opened Text
  import opened SqlSplitter

  // ---------------------------------------------------------------- nothing is lost

  function Concat(pieces: seq<string>): string {
    if pieces == [] then [] else pieces[0] + Concat(pieces[1..])
  }

  lemma {:induction false} PiecesConcat(s: string, from: nat, cuts: seq<nat>)
    requires Increasing(from, cuts, |s|)
    ensures from <= |s| && Concat(Pieces(s, from, cuts)) == s[from..]
    decreases |cuts|
  {
    IncreasingBounded(from, cuts, |s|);
    if cuts == [] {
      assert Concat([s[from..]]) == s[from..] + Concat([]);
    } else {
      var rest := Pieces(s, cuts[0], cuts[1..]);
      PiecesConcat(s, cuts[0], cuts[1..]);
      assert ([s[from..cuts[0]]] + rest)[1..] == rest;
      assert s[from..cuts[0]] + s[cuts[0]..] == s[from..];
    }
  }

  /** The untrimmed pieces concatenate back to the script. */
  lemma PiecesCoverScript(s: string)
    ensures Concat(RawPieces(s)) == s
  {
    CutsIncrease(s, 0, 0);
    PiecesConcat(s, 0, Cuts(s, 0));
    assert s[0..] == s;
  }

  /** Every cut follows a semicolon, and lies after the position lexed from. */
  lemma {:induction false} CutsFollowSemicolons(s: string, i: nat)
    requires i <= |s|
    ensures forall c :: c in Cuts(s, i) ==> i < c <= |s| && s[c - 1] == ';'
    decreases |s| - i
  {
    if i < |s| {
      if s[i] == ';' {
        CutsFollowSemicolons(s, i + 1);
      } else {
        CutsFollowSemicolons(s, LexemeEnd(s, i));
      }
    }
  }

  // ---------------------------------------------------------------- moving text under the lexer

  function Shift(cuts: seq<nat>, n: nat): (r: seq<nat>)
    ensures |r| == |cuts| && forall k :: 0 <= k < |r| ==> r[k] == cuts[k] + n
  {
    seq(|cuts|, k requires 0 <= k < |cuts| => cuts[k] + n)
  }

  lemma {:induction false} LineEndShift(w: string, s: string, i: nat)
    requires i <= |s|
    ensures LineEnd(w + s, |w| + i) == |w| + LineEnd(s, i)
    decreases |s| - i
  {
    if i < |s| && s[i] != '\n' {
      LineEndShift(w, s, i + 1);
    }
  }

  lemma {:induction false} BlockEndShift(w: string, s: string, i: nat)
    requires i <= |s|
    ensures BlockEnd(w + s, |w| + i) == |w| + BlockEnd(s, i)
    decreases |s| - i
  {
    if i + 1 < |s| && !(s[i] == '*' && s[i + 1] == '/') {
      BlockEndShift(w, s, i + 1);
    }
  }

  lemma {:induction false} QuoteEndShift(w: string, s: string, i: nat, q: char)
    requires i <= |s|
    ensures QuoteEnd(w + s, |w| + i, q) == |w| + QuoteEnd(s, i, q)
    decreases |s| - i
  {
    if i < |s| {
      if s[i] != q {
        QuoteEndShift(w, s, i + 1, q);
      } else if i + 1 < |s| && s[i + 1] == q {
        QuoteEndShift(w, s, i + 2, q);
      }
    }
  }

  lemma LexemeEndShift(w: string, s: string, i: nat)
    requires i < |s|
    ensures LexemeEnd(w + s, |w| + i) == |w| + LexemeEnd(s, i)
  {
    var t := w + s;
    assert t[|w| + i] == s[i];
    assert forall a, b :: PairAt(t, |w| + i, a, b) == PairAt(s, i, a, b);
    if PairAt(s, i, '-', '-') {
      LineEndShift(w, s, i + 2);
    } else if PairAt(s, i, '/', '*') {
      BlockEndShift(w, s, i + 2);
    } else if s[i] == '\'' || s[i] == '"' {
      QuoteEndShift(w, s, i + 1, s[i]);
    }
  }

  lemma {:induction false} CutsShift(w: string, s: string, i: nat)
    requires i <= |s|
    ensures Cuts(w + s, |w| + i) == Shift(Cuts(s, i), |w|)
    decreases |s| - i
  {
    if i < |s| {
      if s[i] == ';' {
        CutsShift(w, s, i + 1);
      } else {
        LexemeEndShift(w, s, i);
        CutsShift(w, s, LexemeEnd(s, i));
      }
    }
  }

  // ---------------------------------------------------------------- truncating text under the lexer

  lemma {:induction false} LineEndTake(s: string, c: nat, i: nat)
    requires i <= c <= |s|
    ensures LineEnd(s[..c], i) < c || LineEnd(s, i) < c ==> LineEnd(s[..c], i) == LineEnd(s, i)
    decreases c - i
  {
    if i < c && s[i] != '\n' {
      LineEndTake(s, c, i + 1);
    }
  }

  lemma {:induction false} BlockEndTake(s: string, c: nat, i: nat)
    requires i <= c <= |s|
    ensures BlockEnd(s[..c], i) < c || BlockEnd(s, i) < c ==> BlockEnd(s[..c], i) == BlockEnd(s, i)
    decreases c - i
  {
    if i + 1 < c && !(s[i] == '*' && s[i + 1] == '/') {
      BlockEndTake(s, c, i + 1);
    }
  }

  lemma {:induction false} QuoteEndTake(s: string, c: nat, i: nat, q: char)
    requires i <= c <= |s|
    ensures QuoteEnd(s[..c], i, q) < c || QuoteEnd(s, i, q) < c ==> QuoteEnd(s[..c], i, q) == QuoteEnd(s, i, q)
    decreases c - i
  {
    if i < c {
      if s[i] != q {
        QuoteEndTake(s, c, i + 1, q);
      } else if i + 1 < c && s[i + 1] == q {
        QuoteEndTake(s, c, i + 2, q);
      }
    }
  }

  /** A lexeme that ends before the truncation point is the same lexeme in the truncated text. */
  lemma LexemeEndTake(s: string, c: nat, i: nat)
    requires i < c <= |s|
    requires i + 1 < c || c == |s| || IsSpace(s[c])
    ensures LexemeEnd(s[..c], i) < c || LexemeEnd(s, i) < c ==> LexemeEnd(s[..c], i) == LexemeEnd(s, i)
  {
    var t := s[..c];
    assert t[i] == s[i];
    assert PairAt(t, i, '-', '-') == PairAt(s, i, '-', '-');
    assert PairAt(t, i, '/', '*') == PairAt(s, i, '/', '*');
    if PairAt(s, i, '-', '-') {
      LineEndTake(s, c, i + 2);
    } else if PairAt(s, i, '/', '*') {
      BlockEndTake(s, c, i + 2);
    } else if s[i] == '\'' || s[i] == '"' {
      QuoteEndTake(s, c, i + 1, s[i]);
    }
  }

  // ---------------------------------------------------------------- complete and open pieces

  /** A piece that ends with its one and only boundary. */
  predicate Complete(p: string) {
    Cuts(p, 0) == [|p|]
  }

  /** A piece without a boundary. */
  predicate Open(p: string) {
    Cuts(p, 0) == []
  }

  /** Text up to the first cut has that cut alone. */
  lemma {:induction false} CutsUpToFirst(s: string, i: nat)
    requires i <= |s| && Cuts(s, i) != []
    ensures i < Cuts(s, i)[0] <= |s|
    ensures Cuts(s[..Cuts(s, i)[0]], i) == [Cuts(s, i)[0]]
    ensures Cuts(s, Cuts(s, i)[0]) == Cuts(s, i)[1..]
    decreases |s| - i
  {
    var c := Cuts(s, i)[0];
    CutsFollowSemicolons(s, i);
    assert c in Cuts(s, i);
    if s[i] == ';' {
      assert Cuts(s[..c], i) == [i + 1] + Cuts(s[..c], i + 1);
    } else {
      var e := LexemeEnd(s, i);
      CutsUpToFirst(s, e);
      LexemeEndTake(s, c, i);
    }
  }

  /** Text appended to a complete piece starts afresh after its boundary. */
  lemma {:induction false} CutsAppend(p: string, r: string, i: nat)
    requires i <= |p| && Cuts(p, i) == [|p|]
    ensures Cuts(p + r, i) == [|p|] + Cuts(p + r, |p|)
    decreases |p| - i
  {
    var s := p + r;
    assert s[..|p|] == p;
    assert s[i] == p[i];
    if p[i] == ';' {
      assert Cuts(p, i)[0] == i + 1;
    } else {
      var e := LexemeEnd(p, i);
      CutsFollowSemicolons(p, e);
      assert |p| in Cuts(p, e);
      LexemeEndTake(s, |p|, i);
      CutsAppend(p, r, e);
    }
  }

  /** Trailing blank text hides no boundary. */
  lemma {:induction false} CutsTrimRight(t: string, v: string, i: nat)
    requires Blank(v) && i <= |t| && Cuts(t + v, i) == []
    ensures Cuts(t, i) == []
    decreases |t| - i
  {
    if i < |t| {
      var s := t + v;
      assert s[..|t|] == t && s[i] == t[i];
      assert |t| < |s| ==> s[|t|] == v[0];
      LexemeEndTake(s, |t|, i);
      if LexemeEnd(t, i) < |t| {
        CutsTrimRight(t, v, LexemeEnd(t, i));
      }
    }
  }

  /** Leading blank text contains no boundary and no lexeme that reaches past it. */
  lemma {:induction false} CutsSkipBlank(w: string, s: string, i: nat)
    requires Blank(w) && i <= |w|
    ensures Cuts(w + s, i) == Cuts(w + s, |w|)
    decreases |w| - i
  {
    if i < |w| {
      assert (w + s)[i] == w[i];
      assert IsSpace(w[i]);
      CutsSkipBlank(w, s, i + 1);
    }
  }

  /** Every script is open, or a complete piece followed by a shorter script. */
  lemma Decompose(s: string) returns (p: string, r: string)
    ensures s == p + r
    ensures Complete(p) || (Open(p) && r == [])
  {
    if Cuts(s, 0) == [] {
      p, r := s, [];
    } else {
      CutsUpToFirst(s, 0);
      var c := Cuts(s, 0)[0];
      p, r := s[..c], s[c..];
    }
  }

  lemma CompleteEnds(p: string)
    requires Complete(p)
    ensures p != [] && p[|p| - 1] == ';'
  {
    CutsFollowSemicolons(p, 0);
    assert |p| in Cuts(p, 0);
  }

  // ---------------------------------------------------------------- laws of Split

  lemma SplitOpen(p: string)
    requires Open(p)
    ensures Split(p) == if Trim(p) == [] then [] else [Trim(p)]
  {
    var whole := [p];
    assert p[0..] == p;
    assert RawPieces(p) == whole;
    assert whole[1..] == [] && TrimmedPieces(whole[1..]) == [];
    assert TrimmedPieces(whole) == if Trim(p) == [] then [] else [Trim(p)];
  }

  lemma {:induction false} PiecesShift(w: string, s: string, from: nat, cuts: seq<nat>)
    requires Increasing(from, cuts, |s|)
    ensures Increasing(|w| + from, Shift(cuts, |w|), |w + s|)
    ensures Pieces(w + s, |w| + from, Shift(cuts, |w|)) == Pieces(s, from, cuts)
    decreases |cuts|
  {
    IncreasingBounded(from, cuts, |s|);
    var t := w + s;
    if cuts == [] {
      assert t[|w| + from..] == s[from..];
    } else {
      assert Shift(cuts, |w|)[1..] == Shift(cuts[1..], |w|);
      PiecesShift(w, s, cuts[0], cuts[1..]);
      assert t[|w| + from..|w| + cuts[0]] == s[from..cuts[0]];
    }
  }

  lemma RawPiecesComplete(p: string, r: string)
    requires Complete(p)
    ensures RawPieces(p + r) == [p] + RawPieces(r)
  {
    CutsAppend(p, r, 0);
    CutsShift(p, r, 0);
    CutsIncrease(p + r, 0, 0);
    CutsIncrease(r, 0, 0);
    PiecesShift(p, r, 0, Cuts(r, 0));
    assert Cuts(p + r, 0)[1..] == Shift(Cuts(r, 0), |p|);
    assert (p + r)[0..|p|] == p;
  }

  lemma SplitComplete(p: string, r: string)
    requires Complete(p)
    ensures Split(p + r) == [Trim(p)] + Split(r)
  {
    RawPiecesComplete(p, r);
    var rest := RawPieces(r);
    assert ([p] + rest)[1..] == rest;
    CompleteEnds(p);
    TrimEmpty(p);
    assert !IsSpace(p[|p| - 1]);
  }

  lemma CompleteUnderBlank(w: string, p: string)
    requires Blank(w)
    ensures Complete(w + p) <==> Complete(p)
    ensures Open(w + p) <==> Open(p)
  {
    CutsSkipBlank(w, p, 0);
    CutsShift(w, p, 0);
    if Complete(w + p) {
      assert Shift(Cuts(p, 0), |w|)[0] == |w + p|;
    }
  }

  /** Leading blank text does not change what a script splits into. */
  lemma SplitSkipsBlank(w: string, s: string)
    requires Blank(w)
    ensures Split(w + s) == Split(s)
  {
    var p, r := Decompose(s);
    CompleteUnderBlank(w, p);
    TrimDropsLeading(w, p);
    assert w + s == (w + p) + r;
    if Complete(p) {
      SplitComplete(w + p, r);
      SplitComplete(p, r);
    } else {
      assert p == s;
      SplitOpen(w + p);
      SplitOpen(p);
    }
  }

  /** Trimming keeps a complete piece complete and an open piece open. */
  lemma TrimKeepsShape(p: string)
    ensures Complete(p) ==> Complete(Trim(p))
    ensures Open(p) ==> Open(Trim(p))
  {
    var w, v := TrimSplits(p);
    var t := Trim(p);
    assert p == w + (t + v);
    CompleteUnderBlank(w, t + v);
    if Complete(p) {
      CompleteEnds(p);
      assert v == [];
      assert t + v == t;
    }
    if Open(p) {
      CutsTrimRight(t, v, 0);
    }
  }

  lemma TrimTwice(p: string)
    ensures Trim(Trim(p)) == Trim(p)
  {
    var w, v := TrimSplits(p);
    TrimFixed(Trim(p));
  }

  /** The statements one per line. */
  function JoinLines(statements: seq<string>): string {
    if statements == [] then []
    else if |statements| == 1 then statements[0]
    else statements[0] + "\n" + JoinLines(statements[1..])
  }

  lemma {:induction false} JoinAfterComplete(a: string, rest: seq<string>)
    requires Complete(a) && Trim(a) == a
    requires Split(JoinLines(rest)) == rest
    ensures Split(JoinLines([a] + rest)) == [a] + rest
  {
    assert ([a] + rest)[1..] == rest;
    if rest == [] {
      assert [a] + rest == [a] && a + [] == a;
      SplitComplete(a, []);
    } else {
      var tail := "\n" + JoinLines(rest);
      assert JoinLines([a] + rest) == a + tail;
      SplitComplete(a, tail);
      SplitSkipsBlank("\n", JoinLines(rest));
    }
  }

  /** Joining the produced statements with newlines and splitting again gives the same list. */
  lemma {:induction false} SplitRoundTrip(s: string)
    ensures Split(JoinLines(Split(s))) == Split(s)
    decreases |s|
  {
    var p, r := Decompose(s);
    TrimKeepsShape(p);
    TrimTwice(p);
    if Complete(p) {
      CompleteEnds(p);
      SplitComplete(p, r);
      SplitRoundTrip(r);
      JoinAfterComplete(Trim(p), Split(r));
    } else {
      assert s == p;
      SplitOpen(p);
      SplitOpen(Trim(p));
      assert Open([]) && Trim([]) == [];
      SplitOpen([]);
    }
  }

  /** Only the text after the last boundary can be blank, so at most one piece is dropped. */
  lemma {:induction false} OnlyRemainderBlank(s: string)
    ensures |Split(s)| == |RawPieces(s)| - (if Blank(RawPieces(s)[|RawPieces(s)| - 1]) then 1 else 0)
    decreases |s|
  {
    var p, r := Decompose(s);
    if Complete(p) {
      CompleteEnds(p);
      OnlyRemainderBlank(r);
      SplitComplete(p, r);
      RawPiecesComplete(p, r);
    } else {
      assert s == p && p[0..] == p;
      SplitOpen(p);
      TrimEmpty(p);
    }
  }

  // ---------------------------------------------------------------- what holds no boundary

  /** The passage `w` in front of `r` adds no boundary: it only lengthens the first piece. */
  ghost predicate AddsNoBoundary(w: string, r: string) {
    RawPieces(w + r) == [w + RawPieces(r)[0]] + RawPieces(r)[1..]
  }

  lemma LexemeAddsNoBoundary(w: string, r: string)
    requires w != [] && w[0] != ';' && LexemeEnd(w + r, 0) == |w|
    ensures AddsNoBoundary(w, r)
  {
    var s, cuts := w + r, Cuts(r, 0);
    CutsShift(w, r, 0);
    CutsIncrease(s, 0, 0);
    CutsIncrease(r, 0, 0);
    assert Cuts(s, 0) == Shift(cuts, |w|);
    if cuts == [] {
      assert s[0..] == w + r[0..];
    } else {
      IncreasingBounded(0, cuts, |r|);
      PiecesShift(w, r, cuts[0], cuts[1..]);
      assert Shift(cuts, |w|)[1..] == Shift(cuts[1..], |w|);
      assert s[0..|w| + cuts[0]] == w + r[0..cuts[0]];
    }
  }

  lemma {:induction false} LineEndAfter(t: string, r: string, i: nat)
    requires i <= |t| && '\n' !in t
    ensures LineEnd(t + ("\n" + r), i) == |t| + 1
    decreases |t| - i
  {
    if i < |t| {
      assert (t + ("\n" + r))[i] == t[i];
      LineEndAfter(t, r, i + 1);
    }
  }

  /** A line comment, whatever stands in it. */
  lemma LineCommentHides(t: string, r: string)
    requires '\n' !in t
    ensures AddsNoBoundary("--" + t + "\n", r)
  {
    var w := "--" + t + "\n";
    LineEndAfter(t, r, 0);
    LineEndShift("--", t + ("\n" + r), 0);
    assert w + r == "--" + (t + ("\n" + r));
    LexemeAddsNoBoundary(w, r);
  }

  /** The text has no block-comment closer. */
  predicate NoCloser(t: string) {
    forall i :: 0 <= i < |t| - 1 ==> !PairAt(t, i, '*', '/')
  }

  lemma {:induction false} BlockEndAfter(t: string, r: string, i: nat)
    requires i <= |t| && NoCloser(t)
    ensures BlockEnd(t + ("*/" + r), i) == |t| + 2
    decreases |t| - i
  {
    var s := t + ("*/" + r);
    if i < |t| {
      assert s[i] == t[i] && s[i + 1] == if i + 1 < |t| then t[i + 1] else '*';
      assert i + 1 < |t| ==> !PairAt(t, i, '*', '/');
      BlockEndAfter(t, r, i + 1);
    }
  }

  /** A block comment up to its first closer; opened again inside, it does not nest. */
  lemma BlockCommentHides(t: string, r: string)
    requires NoCloser(t)
    ensures AddsNoBoundary("/*" + t + "*/", r)
  {
    var w := "/*" + t + "*/";
    BlockEndAfter(t, r, 0);
    BlockEndShift("/*", t + ("*/" + r), 0);
    assert w + r == "/*" + (t + ("*/" + r));
    LexemeAddsNoBoundary(w, r);
  }

  /** The text with every quote written twice. */
  function Doubled(t: string, q: char): string {
    if t == [] then [] else (if t[0] == q then [q, q] else [t[0]]) + Doubled(t[1..], q)
  }

  lemma {:induction false} QuoteEndAfter(t: string, q: char, r: string)
    requires r != [] ==> r[0] != q
    ensures QuoteEnd(Doubled(t, q) + ([q] + r), 0, q) == |Doubled(t, q)| + 1
  {
    var rest := Doubled(if t == [] then [] else t[1..], q) + ([q] + r);
    if t != [] {
      QuoteEndAfter(t[1..], q, r);
      var head := if t[0] == q then [q, q] else [t[0]];
      assert Doubled(t, q) + ([q] + r) == head + rest;
      QuoteEndShift(head, rest, 0, q);
    }
  }

  /** A quoted literal or identifier, its own quotes doubled. */
  lemma QuotedHides(t: string, q: char, r: string)
    requires (q == '\'' || q == '"') && (r != [] ==> r[0] != q)
    ensures AddsNoBoundary([q] + Doubled(t, q) + [q], r)
  {
    var w := [q] + Doubled(t, q) + [q];
    QuoteEndAfter(t, q, r);
    QuoteEndShift([q], Doubled(t, q) + ([q] + r), 0, q);
    assert w + r == [q] + (Doubled(t, q) + ([q] + r));
    LexemeAddsNoBoundary(w, r);
  }

  /** Any other character that starts none of these. */
  lemma OrdinaryHides(c: char, r: string)
    requires c != ';' && c != '\'' && c != '"'
    requires c == '-' ==> r == [] || r[0] != '-'
    requires c == '/' ==> r == [] || r[0] != '*'
    ensures AddsNoBoundary([c], r)
  {
    LexemeAddsNoBoundary([c], r);
  }

  /** And a semicolon outside of all these ends a piece. */
  lemma SemicolonEnds(r: string)
    ensures RawPieces(";" + r) == [";"] + RawPieces(r)
  {
    assert Cuts(";", 0) == [1] + Cuts(";", 1);
    RawPiecesComplete(";", r);
  }

  lemma LexemeToEnd(s: string)
    requires s != [] && s[0] != ';' && LexemeEnd(s, 0) == |s|
    ensures RawPieces(s) == [s]
  {
    assert Cuts(s, 0) == [];
    assert s[0..] == s;
  }

  lemma {:induction false} LineEndNever(t: string, i: nat)
    requires i <= |t| && '\n' !in t
    ensures LineEnd(t, i) == |t|
    decreases |t| - i
  {
    if i < |t| {
      LineEndNever(t, i + 1);
    }
  }

  lemma {:induction false} BlockEndNever(t: string, i: nat)
    requires i <= |t| && NoCloser(t)
    ensures BlockEnd(t, i) == |t|
    decreases |t| - i
  {
    if i + 1 < |t| {
      assert !PairAt(t, i, '*', '/');
      BlockEndNever(t, i + 1);
    }
  }

  lemma {:induction false} QuoteEndNever(t: string, q: char)
    ensures QuoteEnd(Doubled(t, q), 0, q) == |Doubled(t, q)|
  {
    if t != [] {
      QuoteEndNever(t[1..], q);
      QuoteEndShift(if t[0] == q then [q, q] else [t[0]], Doubled(t[1..], q), 0, q);
    }
  }

  /** A comment or literal that is never closed runs to the end of the script. */
  lemma UnclosedHidesRest(t: string, q: char)
    ensures '\n' !in t ==> RawPieces("--" + t) == ["--" + t]
    ensures NoCloser(t) ==> RawPieces("/*" + t) == ["/*" + t]
    ensures q == '\'' || q == '"' ==> RawPieces([q] + Doubled(t, q)) == [[q] + Doubled(t, q)]
  {
    if '\n' !in t {
      LineEndNever(t, 0);
      LineEndShift("--", t, 0);
      LexemeToEnd("--" + t);
    }
    if NoCloser(t) {
      BlockEndNever(t, 0);
      BlockEndShift("/*", t, 0);
      LexemeToEnd("/*" + t);
    }
    if q == '\'' || q == '"' {
      QuoteEndNever(t, q);
      QuoteEndShift([q], Doubled(t, q), 0, q);
      LexemeToEnd([q] + Doubled(t, q));
    }
  }

  /** What a passage without a boundary means for the statements: it stands at the front of the first one. */
  lemma HiddenInFirst(w: string, r: string)
    requires AddsNoBoundary(w, r) && !Blank(w)
    ensures Split(w + r) == [Trim(w + RawPieces(r)[0])] + TrimmedPieces(RawPieces(r)[1..])
  {
    var first := w + RawPieces(r)[0];
    TrimEmpty(first);
    var i :| 0 <= i < |w| && !IsSpace(w[i]);
    assert first[i] == w[i];
    assert ([first] + RawPieces(r)[1..])[1..] == RawPieces(r)[1..];
  }
}

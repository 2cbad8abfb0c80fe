/** SQL predicates from search filters (archon_search/store_filters.py): LIKE patterns, string literals, and the
    conjunction `build_where` makes of them, read back the way SQL reads them. */
module StoreFilters {
  import opened Options
  import opened Sorting
  import opened SqlConditions

  // ------------------------------------------------------------------ LIKE patterns

  /** `str.replace` of a single character. */
  function Replace(s: string, c: char, with: string): string {
    if s == [] then [] else (if s[0] == c then with else [s[0]]) + Replace(s[1..], c, with)
  }

  /** `escape_like` */
  function EscapeLike(s: string): string {
    Replace(Replace(Replace(s, '\\', "\\\\"), '%', "\\%"), '_', "\\_")
  }

  function Escaped(c: char): string {
    if Special(c) then ['\\', c] else [c]
  }

  lemma {:induction false} ReplaceOfConcat(a: string, b: string, c: char, with: string)
    ensures Replace(a + b, c, with) == Replace(a, c, with) + Replace(b, c, with)
  {
    if a == [] {
      assert a + b == b;
    } else {
      assert (a + b)[1..] == a[1..] + b;
      ReplaceOfConcat(a[1..], b, c, with);
    }
  }

  lemma ReplaceOne(x: char, c: char, with: string)
    ensures Replace([x], c, with) == if x == c then with else [x]
  {
    assert Replace([x][1..], c, with) == [];
  }

  lemma ReplaceTwo(x: char, y: char, c: char, with: string)
    ensures Replace([x, y], c, with) == (if x == c then with else [x]) + if y == c then with else [y]
  {
    assert [x, y][1..] == [y];
    ReplaceOne(y, c, with);
  }

  /** The backslash goes first, so the three passes escape each character once. */
  lemma EscapeOne(c: char)
    ensures EscapeLike([c]) == Escaped(c)
  {
    ReplaceOne(c, '\\', "\\\\");
    ReplaceOne(c, '%', "\\%");
    ReplaceOne(c, '_', "\\_");
    ReplaceTwo('\\', '\\', '%', "\\%");
    ReplaceTwo('\\', '\\', '_', "\\_");
    ReplaceTwo('\\', '%', '_', "\\_");
  }

  lemma EscapeFirst(s: string)
    requires s != []
    ensures EscapeLike(s) == Escaped(s[0]) + EscapeLike(s[1..])
  {
    var a, b := [s[0]], s[1..];
    assert s == a + b;
    EscapeOne(s[0]);
    ReplaceOfConcat(a, b, '\\', "\\\\");
    var a1, b1 := Replace(a, '\\', "\\\\"), Replace(b, '\\', "\\\\");
    ReplaceOfConcat(a1, b1, '%', "\\%");
    ReplaceOfConcat(Replace(a1, '%', "\\%"), Replace(b1, '%', "\\%"), '_', "\\_");
  }

  lemma {:induction false} PercentMatchesAll(s: string)
    ensures Like(s, "%")
  {
    assert "%"[1..] == "";
    if s != [] {
      PercentMatchesAll(s[1..]);
    }
  }

  /** The escaped prefix with a wildcard matches exactly the strings it is a prefix of. */
  lemma {:induction false} LikeEscapedIsPrefix(s: string, p: string)
    ensures Like(s, EscapeLike(p) + "%") <==> p <= s
  {
    if p == [] {
      assert EscapeLike(p) + "%" == "%";
      PercentMatchesAll(s);
    } else {
      EscapeFirst(p);
      var rest := EscapeLike(p[1..]) + "%";
      var pattern := EscapeLike(p) + "%";
      assert pattern == Escaped(p[0]) + rest;
      assert pattern[|Escaped(p[0])|..] == rest;
      assert Like(s, pattern) <==> s != [] && s[0] == p[0] && Like(s[1..], rest);
      if s != [] {
        LikeEscapedIsPrefix(s[1..], p[1..]);
        assert s == [s[0]] + s[1..] && p == [p[0]] + p[1..];
        assert p <= s <==> p[0] == s[0] && p[1..] <= s[1..];
      }
    }
  }

  // ------------------------------------------------------------------ string literals

  /** `_sql_quote_str` */
  function Quote(s: string): string {
    "'" + Replace(s, '\'', "''") + "'"
  }

  predicate StartsWithQuote(t: string) {
    t != [] && t[0] == '\''
  }

  lemma {:induction false} BodyReadsBack(x: string, rest: string)
    requires !StartsWithQuote(rest)
    ensures ReadBody(Replace(x, '\'', "''") + "'" + rest) == Some(Read(x, rest))
  {
    if x == [] {
      assert Replace(x, '\'', "''") + "'" + rest == "'" + rest;
      assert ("'" + rest)[1..] == rest;
    } else {
      var tail := Replace(x[1..], '\'', "''");
      var u := tail + "'" + rest;
      var first := if x[0] == '\'' then "''" else [x[0]];
      BodyReadsBack(x[1..], rest);
      Regrouped(first, tail, "'", rest);
      assert x == [x[0]] + x[1..];
      assert (first + u)[|first|..] == u;
    }
  }

  lemma Regrouped(a: string, b: string, c: string, d: string)
    ensures a + b + c + d == a + (b + c + d)
  {
  }

  // ------------------------------------------------------------------ tokens

  function Chars(sql: string): seq<Token> {
    if sql == [] then [] else [Ch(sql[0])] + Chars(sql[1..])
  }

  /** A clause is SQL text of the code's own and values it quotes. */
  datatype Piece = Sql(sql: string) | Value(value: string)

  function Render(pieces: seq<Piece>): string {
    if pieces == [] then []
    else (if pieces[0].Sql? then pieces[0].sql else Quote(pieces[0].value)) + Render(pieces[1..])
  }

  function Tokens(pieces: seq<Piece>): seq<Token> {
    if pieces == [] then []
    else (if pieces[0].Sql? then Chars(pieces[0].sql) else [Lit(pieces[0].value)]) + Tokens(pieces[1..])
  }

  predicate Clean(sql: string) {
    sql != [] && '\'' !in sql
  }

  /** No quote in the code's own text, and such text between any two values. */
  predicate WellFormed(pieces: seq<Piece>) {
    && (forall i | 0 <= i < |pieces| && pieces[i].Sql? :: Clean(pieces[i].sql))
    && (forall i | 0 < i < |pieces| && pieces[i].Value? :: pieces[i - 1].Sql?)
  }

  lemma {:induction false} PlainTextReadsBack(sql: string, rest: string)
    requires '\'' !in sql
    requires Tokenize(rest).Some?
    ensures Tokenize(sql + rest) == Some(Chars(sql) + Tokenize(rest).value)
  {
    if sql == [] {
      NothingRead(rest, Tokenize(rest).value);
    } else {
      var c, tail := sql[0], sql[1..];
      assert sql == [c] + tail && c in sql;
      PlainTextReadsBack(tail, rest);
      PlainCharReadsBack(c, tail, rest, Tokenize(rest).value);
    }
  }

  lemma NothingRead(rest: string, tokens: seq<Token>)
    ensures [] + rest == rest && Chars([]) + tokens == tokens
  {
  }

  lemma PlainCharReadsBack(c: char, tail: string, rest: string, tokens: seq<Token>)
    requires c != '\'' && Tokenize(tail + rest) == Some(Chars(tail) + tokens)
    ensures Tokenize([c] + tail + rest) == Some(Chars([c] + tail) + tokens)
  {
    var text := [c] + tail + rest;
    assert text[0] == c && text[1..] == tail + rest;
    assert ([c] + tail)[1..] == tail;
    assert Chars([c] + tail) + tokens == [Ch(c)] + (Chars(tail) + tokens);
  }

  /** A quoted value reads back as itself, and what follows it is read as if the value were not there. */
  lemma QuotedValueReadsBack(x: string, rest: string)
    requires !StartsWithQuote(rest)
    ensures Tokenize(Quote(x) + rest) == Before(Lit(x), Tokenize(rest))
  {
    var t := Quote(x) + rest;
    assert t[0] == '\'' && t[1..] == Replace(x, '\'', "''") + "'" + rest;
    BodyReadsBack(x, rest);
  }

  /** Whatever the values hold, the rendered text reads back as the pieces. */
  lemma {:induction false} RenderedPiecesReadBack(pieces: seq<Piece>)
    requires WellFormed(pieces)
    ensures Tokenize(Render(pieces)) == Some(Tokens(pieces))
  {
    if pieces != [] {
      var rest := pieces[1..];
      assert forall i | 0 <= i < |rest| :: rest[i] == pieces[i + 1];
      assert WellFormed(rest);
      RenderedPiecesReadBack(rest);
      if pieces[0].Sql? {
        PlainTextReadsBack(pieces[0].sql, Render(rest));
      } else {
        assert rest != [] ==> rest[0].Sql? && Clean(rest[0].sql);
        assert !StartsWithQuote(Render(rest));
        QuotedValueReadsBack(pieces[0].value, Render(rest));
      }
    }
  }

  // ------------------------------------------------------------------ the conjunction

  datatype Filters = Filters(fileType: Option<string>, prefix: Option<string>, after: Option<string>,
                             before: Option<string>, language: Option<string>)

  datatype Clause =
    | TypeIs(value: string) | PathLike(pattern: string) | IndexedFrom(value: string) | IndexedTo(value: string)
    | LanguageIs(value: string) | InScope(value: string)

  function Pieces(c: Clause): seq<Piece> {
    match c
    case TypeIs(v) => [Sql("file_type = "), Value(v)]
    case PathLike(p) => [Sql("source_path LIKE "), Value(p), Sql(" ESCAPE "), Value("\\")]
    case IndexedFrom(v) => [Sql("indexed_at >= "), Value(v)]
    case IndexedTo(v) => [Sql("indexed_at <= "), Value(v)]
    case LanguageIs(v) => [Sql("language = "), Value(v)]
    case InScope(v) => [Sql("(scopes IS NULL OR list_has(scopes, "), Value(v), Sql("))")]
  }

  function Conjunction(cs: seq<Clause>): seq<Piece> {
    if cs == [] then []
    else if |cs| == 1 then Pieces(cs[0])
    else Pieces(cs[0]) + [Sql(" AND ")] + Conjunction(cs[1..])
  }

  /** `sep.join` */
  function Join(parts: seq<string>, sep: string): string {
    if parts == [] then []
    else if |parts| == 1 then parts[0]
    else parts[0] + sep + Join(parts[1..], sep)
  }

  function Wildcard(scope: string): bool {
    scope != [] && scope[|scope| - 1] == '*'
  }

  /** The clauses the filters ask for; `norm` is the fixed-width form of a time. */
  function Wanted(filters: Option<Filters>, scope: Option<string>, norm: string -> string): seq<Clause> {
    (if filters.None? then [] else WantedBy(filters.value, norm))
    + if scope.Some? && scope.value != "" && !Wildcard(scope.value) then [InScope(scope.value)] else []
  }

  function WantedBy(f: Filters, norm: string -> string): seq<Clause> {
    (if f.fileType.Some? then [TypeIs(f.fileType.value)] else [])
    + (if f.prefix.Some? then [PathLike(EscapeLike(f.prefix.value) + "%")] else [])
    + (if f.after.Some? then [IndexedFrom(norm(f.after.value))] else [])
    + (if f.before.Some? then [IndexedTo(norm(f.before.value))] else [])
    + (if f.language.Some? then [LanguageIs(f.language.value)] else [])
  }

  lemma {:induction false} RenderOfConcat(a: seq<Piece>, b: seq<Piece>)
    ensures Render(a + b) == Render(a) + Render(b)
  {
    if a == [] {
      assert a + b == b;
    } else {
      assert (a + b)[1..] == a[1..] + b;
      RenderOfConcat(a[1..], b);
    }
  }

  lemma RenderSome(a: Piece, b: Piece, c: Piece, d: Piece)
    ensures Render([a]) == PieceText(a)
    ensures Render([a, b]) == PieceText(a) + PieceText(b)
    ensures Render([a, b, c]) == PieceText(a) + PieceText(b) + PieceText(c)
    ensures Render([a, b, c, d]) == PieceText(a) + PieceText(b) + PieceText(c) + PieceText(d)
  {
    RenderOfConcat([a], [b]);
    RenderOfConcat([a, b], [c]);
    RenderOfConcat([a, b, c], [d]);
    assert [a] + [b] == [a, b] && [a, b] + [c] == [a, b, c] && [a, b, c] + [d] == [a, b, c, d];
  }

  function PieceText(p: Piece): string {
    if p.Sql? then p.sql else Quote(p.value)
  }

  function Texts(cs: seq<Clause>): seq<string> {
    seq(|cs|, i requires 0 <= i < |cs| => Render(Pieces(cs[i])))
  }

  lemma {:induction false} JoinRenders(cs: seq<Clause>)
    ensures Join(Texts(cs), " AND ") == Render(Conjunction(cs))
  {
    if |cs| > 1 {
      var rest := cs[1..];
      JoinRenders(rest);
      assert Texts(cs)[1..] == Texts(rest);
      RenderOfConcat(Pieces(cs[0]), [Sql(" AND ")]);
      RenderOfConcat(Pieces(cs[0]) + [Sql(" AND ")], Conjunction(rest));
      RenderSome(Sql(" AND "), Sql(""), Sql(""), Sql(""));
    }
  }

  lemma CleanTexts()
    ensures Clean("file_type = ") && Clean("source_path LIKE ") && Clean(" ESCAPE ")
    ensures Clean("indexed_at >= ") && Clean("indexed_at <= ") && Clean("language = ")
  {
  }

  lemma CleanScopeTexts()
    ensures Clean("(scopes IS NULL OR list_has(scopes, ") && Clean("))")
  {
  }

  lemma TwoPieces(sql: string, v: string)
    requires Clean(sql)
    ensures WellFormed([Sql(sql), Value(v)])
  {
  }

  lemma ThreePieces(sql: string, v: string, end: string)
    requires Clean(sql) && Clean(end)
    ensures WellFormed([Sql(sql), Value(v), Sql(end)])
  {
  }

  lemma FourPieces(sql: string, v: string, middle: string, w: string)
    requires Clean(sql) && Clean(middle)
    ensures WellFormed([Sql(sql), Value(v), Sql(middle), Value(w)])
  {
  }

  lemma PiecesAreWellFormed(c: Clause)
    ensures WellFormed(Pieces(c)) && Pieces(c)[0].Sql?
  {
    CleanTexts();
    CleanScopeTexts();
    match c
    case PathLike(p) => FourPieces("source_path LIKE ", p, " ESCAPE ", "\\");
    case InScope(v) => ThreePieces("(scopes IS NULL OR list_has(scopes, ", v, "))");
    case _ => TwoPieces(Pieces(c)[0].sql, c.value);
  }

  lemma {:induction false} ConjunctionIsWellFormed(cs: seq<Clause>)
    ensures WellFormed(Conjunction(cs)) && (cs != [] ==> Conjunction(cs) != [] && Conjunction(cs)[0].Sql?)
  {
    if cs != [] {
      PiecesAreWellFormed(cs[0]);
      if |cs| > 1 {
        ConjunctionIsWellFormed(cs[1..]);
      }
    }
  }

  /** The joined clauses read back as the clauses, each value in its own literal, whatever the values hold. */
  lemma JoinedClausesReadBack(cs: seq<Clause>)
    ensures Tokenize(Join(Texts(cs), " AND ")) == Some(Tokens(Conjunction(cs)))
  {
    JoinRenders(cs);
    ConjunctionIsWellFormed(cs);
    RenderedPiecesReadBack(Conjunction(cs));
  }

  lemma NoClauseNoText(cs: seq<Clause>)
    ensures Join(Texts(cs), " AND ") == "" <==> cs == []
  {
    JoinedClausesReadBack(cs);
    if cs != [] {
      ConjunctionIsWellFormed(cs);
      assert Tokens(Conjunction(cs)) != [];
    }
  }

  // ------------------------------------------------------------------ what SQL makes of the conjunction

  /** A word of the code's own text: no blank, no punctuation. */
  predicate IsWord(w: string) {
    w != "" && forall c | c in w :: c != ' ' && !Punctuation(c)
  }

  lemma {:induction false} CharsOfConcat(a: string, b: string)
    ensures Chars(a + b) == Chars(a) + Chars(b)
  {
    if a == "" {
      assert a + b == b;
    } else {
      assert (a + b)[1..] == a[1..] + b;
      CharsOfConcat(a[1..], b);
    }
  }

  lemma {:induction false} WordsAreGathered(w: string, rest: seq<Token>, word: string)
    requires forall c | c in w :: c != ' ' && !Punctuation(c)
    ensures Lex(Chars(w) + rest, word) == Lex(rest, word + w)
    decreases |w|
  {
    if w == "" {
      assert Chars(w) + rest == rest && word + w == word;
    } else {
      var c, tail := w[0], w[1..];
      assert c in w && forall d | d in tail :: d in w;
      OneCharIsGathered(c, Chars(tail) + rest, word);
      OneMoreToken(Ch(c), Chars(tail), rest);
      WordsAreGathered(tail, rest, word + [c]);
      assert word + [c] + tail == word + w;
    }
  }

  lemma OneMoreToken(t: Token, a: seq<Token>, b: seq<Token>)
    ensures ([t] + a) + b == [t] + (a + b)
  {
  }

  lemma OneCharIsGathered(c: char, rest: seq<Token>, word: string)
    requires c != ' ' && !Punctuation(c)
    ensures Lex([Ch(c)] + rest, word) == Lex(rest, word + [c])
  {
    assert ([Ch(c)] + rest)[1..] == rest;
  }

  /** SQL sees these words in the tokens, whatever follows them. */
  ghost predicate ReadsAs(ts: seq<Token>, words: seq<Lexeme>) {
    forall rest: seq<Token> :: Lex(ts + rest, "") == words + Lex(rest, "")
  }

  lemma BothRead(a: seq<Token>, b: seq<Token>, aWords: seq<Lexeme>, bWords: seq<Lexeme>)
    requires ReadsAs(a, aWords) && ReadsAs(b, bWords)
    ensures ReadsAs(a + b, aWords + bWords)
  {
    forall rest: seq<Token> ensures Lex(a + b + rest, "") == aWords + bWords + Lex(rest, "") {
      assert a + b + rest == a + (b + rest);
      assert aWords + bWords + Lex(rest, "") == aWords + (bWords + Lex(rest, ""));
    }
  }

  lemma LiteralReads(v: string)
    ensures ReadsAs([Lit(v)], [Text(v)])
  {
    forall rest: seq<Token> ensures Lex([Lit(v)] + rest, "") == [Text(v)] + Lex(rest, "") {
      assert ([Lit(v)] + rest)[1..] == rest;
      assert Flush("") + [Text(v)] == [Text(v)];
    }
  }

  lemma WordEnds(w: string, rest: seq<Token>)
    requires w == "" || IsWord(w)
    ensures Lex(Chars(w) + rest, "") == Lex(rest, w)
  {
    WordsAreGathered(w, rest, "");
    assert "" + w == w;
  }

  lemma OneChar(c: char)
    ensures Chars([c]) == [Ch(c)]
  {
    assert Chars([c][1..]) == [];
  }

  /** A word and the blank behind it. */
  lemma WordReads(w: string)
    requires IsWord(w)
    ensures ReadsAs(Chars(w + " "), [Word(w)])
  {
    forall rest: seq<Token> ensures Lex(Chars(w + " ") + rest, "") == [Word(w)] + Lex(rest, "") {
      WordSplits(w, ' ', rest);
      WordEnds(w, [Ch(' ')] + rest);
      assert ([Ch(' ')] + rest)[1..] == rest;
    }
  }

  lemma WordSplits(w: string, mark: char, rest: seq<Token>)
    ensures Chars(w + [mark]) + rest == Chars(w) + ([Ch(mark)] + rest)
  {
    CharsOfConcat(w, [mark]);
    OneChar(mark);
  }

  /** A punctuation mark and the word before it, if any. */
  lemma MarkReads(w: string, mark: char)
    requires (w == "" || IsWord(w)) && Punctuation(mark)
    ensures ReadsAs(Chars(w + [mark]), Flush(w) + [Word([mark])])
  {
    forall rest: seq<Token> ensures Lex(Chars(w + [mark]) + rest, "") == Flush(w) + [Word([mark])] + Lex(rest, "") {
      WordSplits(w, mark, rest);
      WordEnds(w, [Ch(mark)] + rest);
      assert ([Ch(mark)] + rest)[1..] == rest;
    }
  }

  lemma BlankReads()
    ensures ReadsAs(Chars(" "), [])
  {
    OneChar(' ');
    forall rest: seq<Token> ensures Lex(Chars(" ") + rest, "") == [] + Lex(rest, "") {
      assert ([Ch(' ')] + rest)[1..] == rest;
    }
  }

  lemma TextsRead(a: string, b: string, aWords: seq<Lexeme>, bWords: seq<Lexeme>)
    requires ReadsAs(Chars(a), aWords) && ReadsAs(Chars(b), bWords)
    ensures ReadsAs(Chars(a + b), aWords + bWords)
  {
    CharsOfConcat(a, b);
    BothRead(Chars(a), Chars(b), aWords, bWords);
  }

  lemma {:induction false} TokensOfConcat(a: seq<Piece>, b: seq<Piece>)
    ensures Tokens(a + b) == Tokens(a) + Tokens(b)
  {
    if a == [] {
      assert a + b == b;
    } else {
      assert (a + b)[1..] == a[1..] + b;
      TokensOfConcat(a[1..], b);
    }
  }

  lemma TokensOfOne(p: Piece)
    ensures Tokens([p]) == if p.Sql? then Chars(p.sql) else [Lit(p.value)]
  {
    assert Tokens([p][1..]) == [];
  }

  lemma PiecesRead(a: seq<Piece>, b: seq<Piece>, aWords: seq<Lexeme>, bWords: seq<Lexeme>)
    requires ReadsAs(Tokens(a), aWords) && ReadsAs(Tokens(b), bWords)
    ensures ReadsAs(Tokens(a + b), aWords + bWords)
  {
    TokensOfConcat(a, b);
    BothRead(Tokens(a), Tokens(b), aWords, bWords);
  }

  /** Text of the code and a value behind it. */
  lemma TextAndValueRead(sql: string, v: string, words: seq<Lexeme>)
    requires ReadsAs(Chars(sql), words)
    ensures ReadsAs(Tokens([Sql(sql), Value(v)]), words + [Text(v)])
  {
    TokensOfOne(Sql(sql));
    TokensOfOne(Value(v));
    LiteralReads(v);
    PiecesRead([Sql(sql)], [Value(v)], words, [Text(v)]);
    assert [Sql(sql)] + [Value(v)] == [Sql(sql), Value(v)];
  }

  lemma ColumnReads(column: string, op: string)
    requires IsWord(column) && IsWord(op)
    ensures ReadsAs(Chars(column + " " + (op + " ")), [Word(column), Word(op)])
  {
    WordReads(column);
    WordReads(op);
    TextsRead(column + " ", op + " ", [Word(column)], [Word(op)]);
    assert [Word(column)] + [Word(op)] == [Word(column), Word(op)];
  }

  /** The words that SQL sees in a clause. */
  function ClauseWords(c: Clause): seq<Lexeme> {
    match c
    case TypeIs(v) => [Word("file_type"), Word("="), Text(v)]
    case PathLike(p) => [Word("source_path"), Word("LIKE"), Text(p), Word("ESCAPE"), Text("\\")]
    case IndexedFrom(v) => [Word("indexed_at"), Word(">="), Text(v)]
    case IndexedTo(v) => [Word("indexed_at"), Word("<="), Text(v)]
    case LanguageIs(v) => [Word("language"), Word("="), Text(v)]
    case InScope(v) => ScopeTest + [Text(v), Word(")"), Word(")")]
  }

  /** A column, an operator and a literal. */
  lemma ComparisonReads(column: string, op: string, sql: string, v: string)
    requires IsWord(column) && IsWord(op) && sql == column + " " + (op + " ")
    ensures ReadsAs(Tokens([Sql(sql), Value(v)]), [Word(column), Word(op), Text(v)])
  {
    ColumnReads(column, op);
    TextAndValueRead(sql, v, [Word(column), Word(op)]);
    assert [Word(column), Word(op)] + [Text(v)] == [Word(column), Word(op), Text(v)];
  }

  lemma PathClauseReads(p: string)
    ensures ReadsAs(Tokens(Pieces(PathLike(p))), ClauseWords(PathLike(p)))
  {
    var first, second := [Sql("source_path LIKE "), Value(p)], [Sql(" ESCAPE "), Value("\\")];
    var words, others := [Word("source_path"), Word("LIKE"), Text(p)], [Word("ESCAPE"), Text("\\")];
    PathReads(p);
    EscapeReads();
    PiecesRead(first, second, words, others);
    PathClauseInTwo(p);
  }

  lemma PathClauseInTwo(p: string)
    ensures Pieces(PathLike(p)) == [Sql("source_path LIKE "), Value(p)] + [Sql(" ESCAPE "), Value("\\")]
    ensures ClauseWords(PathLike(p))
            == [Word("source_path"), Word("LIKE"), Text(p)] + [Word("ESCAPE"), Text("\\")]
  {
  }

  lemma PathReads(p: string)
    ensures ReadsAs(Tokens([Sql("source_path LIKE "), Value(p)]), [Word("source_path"), Word("LIKE"), Text(p)])
  {
    ComparisonReads("source_path", "LIKE", "source_path LIKE ", p);
  }

  lemma EscapeReads()
    ensures ReadsAs(Tokens([Sql(" ESCAPE "), Value("\\")]), [Word("ESCAPE"), Text("\\")])
  {
    KeywordReads("ESCAPE");
    TextAndValueRead(" " + ("ESCAPE" + " "), "\\", [Word("ESCAPE")]);
    EscapeSpelled();
  }

  lemma EscapeSpelled()
    ensures " " + ("ESCAPE" + " ") == " ESCAPE "
    ensures [Word("ESCAPE")] + [Text("\\")] == [Word("ESCAPE"), Text("\\")]
  {
  }

  /** A word between blanks. */
  lemma KeywordReads(w: string)
    requires IsWord(w)
    ensures ReadsAs(Chars(" " + (w + " ")), [Word(w)])
  {
    BlankReads();
    WordReads(w);
    TextsRead(" ", w + " ", [], [Word(w)]);
    assert [] + [Word(w)] == [Word(w)];
  }

  /** `(scopes IS NULL OR ` */
  lemma NullTestReads()
    ensures ReadsAs(Chars("(scopes IS NULL OR "), [Word("("), Word("scopes"), Word("IS"), Word("NULL"), Word("OR")])
  {
    MarkReads("", '(');
    WordReads("scopes");
    TextsRead("" + ['('], "scopes" + " ", Flush("") + [Word(['('])], [Word("scopes")]);
    ColumnReads("IS", "NULL");
    WordReads("OR");
    var a, b := "" + ['('] + ("scopes" + " "), "IS" + " " + ("NULL" + " ");
    var words := Flush("") + [Word(['('])] + [Word("scopes")];
    TextsRead(a, b, words, [Word("IS"), Word("NULL")]);
    TextsRead(a + b, "OR" + " ", words + [Word("IS"), Word("NULL")], [Word("OR")]);
    NullTestInThree();
  }

  lemma NullTestInThree()
    ensures "" + ['('] + ("scopes" + " ") + ("IS" + " " + ("NULL" + " ")) + ("OR" + " ") == "(scopes IS NULL OR "
    ensures Flush("") + [Word(['('])] + [Word("scopes")] + [Word("IS"), Word("NULL")] + [Word("OR")]
            == [Word("("), Word("scopes"), Word("IS"), Word("NULL"), Word("OR")]
  {
  }

  /** `list_has(scopes, ` */
  lemma MemberTestReads()
    ensures ReadsAs(Chars("list_has(scopes, "), [Word("list_has"), Word("("), Word("scopes"), Word(",")])
  {
    MarkReads("list_has", '(');
    MarkReads("scopes", ',');
    BlankReads();
    var a, b := "list_has" + ['('], "scopes" + [','];
    TextsRead(a, b, Flush("list_has") + [Word(['('])], Flush("scopes") + [Word([','])]);
    TextsRead(a + b, " ", Flush("list_has") + [Word(['('])] + (Flush("scopes") + [Word([','])]), []);
    MemberTestInThree();
  }

  lemma MemberTestInThree()
    ensures "list_has" + ['('] + ("scopes" + [',']) + " " == "list_has(scopes, "
    ensures Flush("list_has") + [Word(['('])] + (Flush("scopes") + [Word([','])]) + []
            == [Word("list_has"), Word("("), Word("scopes"), Word(",")]
  {
  }

  lemma ScopeClauseReads(v: string)
    ensures ReadsAs(Tokens(Pieces(InScope(v))), ClauseWords(InScope(v)))
  {
    var text := "(scopes IS NULL OR list_has(scopes, ";
    ScopeTextReads();
    TextAndValueRead(text, v, ScopeTest);
    EndReads();
    PiecesRead([Sql(text), Value(v)], [Sql("))")], ScopeTest + [Text(v)], [Word(")"), Word(")")]);
    ScopeClauseInTwo(v);
  }

  lemma ScopeClauseInTwo(v: string)
    ensures Pieces(InScope(v)) == [Sql("(scopes IS NULL OR list_has(scopes, "), Value(v)] + [Sql("))")]
    ensures ClauseWords(InScope(v)) == ScopeTest + [Text(v)] + [Word(")"), Word(")")]
  {
  }

  lemma ScopeTextReads()
    ensures ReadsAs(Chars("(scopes IS NULL OR list_has(scopes, "), ScopeTest)
  {
    var words := [Word("("), Word("scopes"), Word("IS"), Word("NULL"), Word("OR")];
    var others := [Word("list_has"), Word("("), Word("scopes"), Word(",")];
    NullTestReads();
    MemberTestReads();
    TextsRead("(scopes IS NULL OR ", "list_has(scopes, ", words, others);
    ScopeTextInTwo();
  }

  lemma ScopeTextInTwo()
    ensures "(scopes IS NULL OR " + "list_has(scopes, " == "(scopes IS NULL OR list_has(scopes, "
    ensures [Word("("), Word("scopes"), Word("IS"), Word("NULL"), Word("OR")]
            + [Word("list_has"), Word("("), Word("scopes"), Word(",")] == ScopeTest
  {
  }

  lemma EndReads()
    ensures ReadsAs(Tokens([Sql("))")]), [Word(")"), Word(")")])
  {
    TokensOfOne(Sql("))"));
    MarkReads("", ')');
    var mark := "" + [')'];
    TextsRead(mark, mark, Flush("") + [Word([')'])], Flush("") + [Word([')'])]);
    assert mark + mark == "))";
    assert Flush("") + [Word([')'])] + (Flush("") + [Word([')'])]) == [Word(")"), Word(")")];
  }

  lemma AndReads()
    ensures ReadsAs(Tokens([Sql(" AND ")]), [Word("AND")])
  {
    TokensOfOne(Sql(" AND "));
    KeywordReads("AND");
    assert " " + ("AND" + " ") == " AND ";
  }

  lemma ClausesRead(c: Clause)
    ensures ReadsAs(Tokens(Pieces(c)), ClauseWords(c))
  {
    if c.PathLike? {
      PathClauseReads(c.pattern);
    } else if c.InScope? {
      ScopeClauseReads(c.value);
    } else if c.TypeIs? || c.LanguageIs? {
      EqualityReads(c);
    } else {
      BoundReads(c);
    }
  }

  lemma EqualityReads(c: Clause)
    requires c.TypeIs? || c.LanguageIs?
    ensures ReadsAs(Tokens(Pieces(c)), ClauseWords(c))
  {
    if c.TypeIs? {
      ComparisonReads("file_type", "=", "file_type = ", c.value);
    } else {
      ComparisonReads("language", "=", "language = ", c.value);
    }
  }

  lemma BoundReads(c: Clause)
    requires c.IndexedFrom? || c.IndexedTo?
    ensures ReadsAs(Tokens(Pieces(c)), ClauseWords(c))
  {
    if c.IndexedFrom? {
      ComparisonReads("indexed_at", ">=", "indexed_at >= ", c.value);
    } else {
      ComparisonReads("indexed_at", "<=", "indexed_at <= ", c.value);
    }
  }

  function ConjunctionWords(cs: seq<Clause>): seq<Lexeme> {
    if cs == [] then []
    else if |cs| == 1 then ClauseWords(cs[0])
    else ClauseWords(cs[0]) + [Word("AND")] + ConjunctionWords(cs[1..])
  }

  lemma NothingReads()
    ensures ReadsAs([], [])
  {
    forall rest: seq<Token> ensures Lex([] + rest, "") == [] + Lex(rest, "") {
      assert [] + rest == rest;
    }
  }

  lemma {:induction false} ConjunctionsRead(cs: seq<Clause>)
    ensures ReadsAs(Tokens(Conjunction(cs)), ConjunctionWords(cs))
  {
    if cs == [] {
      NothingReads();
    } else {
      ClausesRead(cs[0]);
      if |cs| > 1 {
        ConjunctionsRead(cs[1..]);
        AndReads();
        PiecesRead(Pieces(cs[0]), [Sql(" AND ")], ClauseWords(cs[0]), [Word("AND")]);
        PiecesRead(Pieces(cs[0]) + [Sql(" AND ")], Conjunction(cs[1..]), ClauseWords(cs[0]) + [Word("AND")],
                   ConjunctionWords(cs[1..]));
      }
    }
  }

  lemma ConjunctionsAreLexed(cs: seq<Clause>)
    ensures Lex(Tokens(Conjunction(cs)), "") == ConjunctionWords(cs)
  {
    ConjunctionsRead(cs);
    assert Tokens(Conjunction(cs)) + [] == Tokens(Conjunction(cs));
    assert ConjunctionWords(cs) + Lex([], "") == ConjunctionWords(cs);
  }

  lemma AtLeastIsNotLess(x: string, v: string)
    ensures !Less(x, v) <==> x == v || Less(v, x)
  {
    LessIsStrict(x, v);
  }

  /** A clause means to SQL what it means to the code. */
  lemma ClausesMeanWhatTheySay(c: Clause, r: Row, rest: seq<Lexeme>)
    ensures Comparison(r, ClauseWords(c) + rest) == Some(Verdict(Holds(c, r), rest))
  {
    var ls := ClauseWords(c) + rest;
    match c {
      case IndexedFrom(v) =>
        AtLeastIsNotLess(r.indexedAt, v);
        assert ls[3..] == rest;
      case IndexedTo(v) =>
        AtLeastIsNotLess(v, r.indexedAt);
        assert ls[3..] == rest;
      case TypeIs(_) => assert ls[3..] == rest;
      case LanguageIs(_) => assert ls[3..] == rest;
      case PathLike(_) => assert ls[5..] == rest;
      case InScope(v) => ScopeClausesMeanWhatTheySay(v, r, rest);
    }
  }

  lemma ScopeClausesMeanWhatTheySay(v: string, r: Row, rest: seq<Lexeme>)
    ensures Comparison(r, ClauseWords(InScope(v)) + rest) == Some(Verdict(Holds(InScope(v), r), rest))
  {
    var ls := ClauseWords(InScope(v)) + rest;
    assert ls[..9] == ScopeTest && ls[9] == Text(v) && ls[10..12] == [Word(")"), Word(")")] && ls[12..] == rest;
    assert Column(r, "(").None?;
  }

  lemma AndJoins(r: Row, ls: seq<Lexeme>, holds: bool, others: seq<Lexeme>, othersHold: bool)
    requires Comparison(r, ls) == Some(Verdict(holds, [Word("AND")] + others))
    requires Condition(r, others) == Some(othersHold)
    ensures Condition(r, ls) == Some(holds && othersHold)
  {
    assert ([Word("AND")] + others)[1..] == others;
  }

  lemma {:induction false} ConjunctionsMeanWhatTheySay(cs: seq<Clause>, r: Row)
    requires cs != []
    ensures Condition(r, ConjunctionWords(cs)) == Some(AllHold(cs, r))
  {
    FirstAndOthersHold(cs, r);
    if |cs| == 1 {
      OneClauseMeans(cs[0], r);
    } else {
      ConjunctionsMeanWhatTheySay(cs[1..], r);
      FirstClauseMeans(cs, r);
      AndJoins(r, ConjunctionWords(cs), Holds(cs[0], r), ConjunctionWords(cs[1..]), AllHold(cs[1..], r));
    }
  }

  lemma FirstAndOthersHold(cs: seq<Clause>, r: Row)
    requires cs != []
    ensures AllHold(cs, r) <==> Holds(cs[0], r) && AllHold(cs[1..], r)
  {
    assert cs == [cs[0]] + cs[1..];
    HoldBoth([cs[0]], cs[1..], r);
    HoldOne(cs[0], r);
  }

  lemma OneClauseMeans(c: Clause, r: Row)
    ensures Condition(r, ClauseWords(c)) == Some(Holds(c, r))
  {
    ClausesMeanWhatTheySay(c, r, []);
    assert ClauseWords(c) + [] == ClauseWords(c);
  }

  lemma FirstClauseMeans(cs: seq<Clause>, r: Row)
    requires |cs| > 1
    ensures Comparison(r, ConjunctionWords(cs))
            == Some(Verdict(Holds(cs[0], r), [Word("AND")] + ConjunctionWords(cs[1..])))
  {
    var rest := [Word("AND")] + ConjunctionWords(cs[1..]);
    ClausesMeanWhatTheySay(cs[0], r, rest);
    assert ConjunctionWords(cs) == ClauseWords(cs[0]) + rest;
  }

  /** What the caller asked for, of filters and scope together. */
  predicate Chosen(filters: Option<Filters>, scope: Option<string>, norm: string -> string, r: Row) {
    (filters.Some? ==> Selected(filters.value, norm, r)) && ScopeAllows(scope, r)
  }

  /** The text holds, as SQL reads it, of exactly the rows the filters and the scope select. */
  lemma TheTextSelectsTheRows(filters: Option<Filters>, scope: Option<string>, norm: string -> string, r: Row)
    ensures Evaluate(Join(Texts(Wanted(filters, scope, norm)), " AND "), r) == Some(Chosen(filters, scope, norm, r))
  {
    var cs := Wanted(filters, scope, norm);
    JoinedClausesReadBack(cs);
    NoClauseNoText(cs);
    ClausesSelectTheRows(filters, scope, norm, r);
    if cs != [] {
      ConjunctionsAreLexed(cs);
      ConjunctionsMeanWhatTheySay(cs, r);
    }
  }

  /** `build_where` */
  method BuildWhere(filters: Option<Filters>, scope: Option<string>, norm: string -> string) returns (where: string)
    ensures Tokenize(where) == Some(Tokens(Conjunction(Wanted(filters, scope, norm))))
    ensures where == "" <==> Wanted(filters, scope, norm) == []
    ensures forall r :: Evaluate(where, r) == Some(Chosen(filters, scope, norm, r))
  {
    var clauses: seq<string> := [];
    ghost var cs: seq<Clause> := [];
    if filters.Some? {
      clauses, cs := FilterClauses(filters.value, norm);
    }
    clauses, cs := AddScope(clauses, cs, scope);
    where := Join(clauses, " AND ");
    JoinedClausesReadBack(cs);
    NoClauseNoText(cs);
    forall r ensures Evaluate(where, r) == Some(Chosen(filters, scope, norm, r)) {
      TheTextSelectsTheRows(filters, scope, norm, r);
    }
  }

  /** The scope clause, for an exact scope. */
  method AddScope(before: seq<string>, ghost was: seq<Clause>, scope: Option<string>)
    returns (clauses: seq<string>, ghost cs: seq<Clause>)
    requires before == Texts(was)
    ensures cs == was + if scope.Some? && scope.value != "" && !Wildcard(scope.value)
                        then [InScope(scope.value)] else []
    ensures clauses == Texts(cs)
  {
    clauses, cs := before, was;
    if scope.Some? && scope.value != "" && !Wildcard(scope.value) {
      RenderSome(Sql("(scopes IS NULL OR list_has(scopes, "), Value(scope.value), Sql("))"), Sql("))"));
      clauses := clauses + ["(scopes IS NULL OR list_has(scopes, " + Quote(scope.value) + "))"];
      cs := cs + [InScope(scope.value)];
    }
  }

  lemma PathClauseText(pattern: string)
    ensures Render(Pieces(PathLike(pattern))) == "source_path LIKE " + Quote(pattern) + " ESCAPE '\\'"
  {
    RenderSome(Sql("source_path LIKE "), Value(pattern), Sql(" ESCAPE "), Value("\\"));
    ReplaceOne('\\', '\'', "''");
    var quoted := Quote("\\");
    assert quoted == "'\\'";
    assert " ESCAPE " + quoted == " ESCAPE '\\'";
    assert "source_path LIKE " + Quote(pattern) + (" ESCAPE " + quoted)
           == "source_path LIKE " + Quote(pattern) + " ESCAPE " + quoted;
  }

  method FilterClauses(f: Filters, norm: string -> string) returns (clauses: seq<string>, ghost cs: seq<Clause>)
    ensures cs == WantedBy(f, norm) && clauses == Texts(cs)
  {
    clauses, cs := [], [];
    ghost var t := if f.fileType.Some? then [TypeIs(f.fileType.value)] else [];
    ghost var p := if f.prefix.Some? then [PathLike(EscapeLike(f.prefix.value) + "%")] else [];
    ghost var a := if f.after.Some? then [IndexedFrom(norm(f.after.value))] else [];
    ghost var b := if f.before.Some? then [IndexedTo(norm(f.before.value))] else [];
    clauses, cs := AddComparison(clauses, cs, if f.fileType.Some? then Some(TypeIs(f.fileType.value)) else None);
    assert cs == t;
    clauses, cs := AddPath(clauses, cs, f.prefix);
    assert cs == t + p;
    clauses, cs := AddComparison(clauses, cs, if f.after.Some? then Some(IndexedFrom(norm(f.after.value))) else None);
    assert cs == t + p + a;
    clauses, cs := AddComparison(clauses, cs, if f.before.Some? then Some(IndexedTo(norm(f.before.value))) else None);
    assert cs == t + p + a + b;
    clauses, cs := AddComparison(clauses, cs, if f.language.Some? then Some(LanguageIs(f.language.value)) else None);
  }

  /** The path clause, when there is a prefix. */
  method AddPath(before: seq<string>, ghost was: seq<Clause>, prefix: Option<string>)
    returns (clauses: seq<string>, ghost cs: seq<Clause>)
    requires before == Texts(was)
    ensures cs == was + if prefix.Some? then [PathLike(EscapeLike(prefix.value) + "%")] else []
    ensures clauses == Texts(cs)
  {
    clauses, cs := before, was;
    if prefix.Some? {
      var pattern := EscapeLike(prefix.value) + "%";
      PathClauseText(pattern);
      clauses := clauses + ["source_path LIKE " + Quote(pattern) + " ESCAPE '\\'"];
      cs := cs + [PathLike(pattern)];
    }
  }

  /** A column compared with a quoted value, when there is one. */
  method AddComparison(before: seq<string>, ghost was: seq<Clause>, c: Option<Clause>)
    returns (clauses: seq<string>, ghost cs: seq<Clause>)
    requires before == Texts(was) && (c.Some? ==> !c.value.PathLike? && !c.value.InScope?)
    ensures cs == was + if c.Some? then [c.value] else []
    ensures clauses == Texts(cs)
  {
    clauses, cs := before, was;
    if c.Some? {
      var sql, value := Pieces(c.value)[0], Pieces(c.value)[1];
      RenderSome(sql, value, sql, sql);
      assert Pieces(c.value) == [sql, value];
      clauses := clauses + [sql.sql + Quote(value.value)];
      cs := cs + [c.value];
    }
  }

  // ------------------------------------------------------------------ what the conjunction selects

  predicate Holds(c: Clause, r: Row) {
    match c
    case TypeIs(v) => r.fileType == v
    case PathLike(p) => Like(r.path, p)
    case IndexedFrom(v) => !Less(r.indexedAt, v)
    case IndexedTo(v) => !Less(v, r.indexedAt)
    case LanguageIs(v) => r.language == v
    case InScope(v) => r.scopes.None? || v in r.scopes.value
  }

  /** What the caller asked for. */
  predicate Selected(f: Filters, norm: string -> string, r: Row) {
    && (f.fileType.Some? ==> r.fileType == f.fileType.value)
    && (f.prefix.Some? ==> f.prefix.value <= r.path)
    && (f.after.Some? ==> !Less(r.indexedAt, norm(f.after.value)))
    && (f.before.Some? ==> !Less(norm(f.before.value), r.indexedAt))
    && (f.language.Some? ==> r.language == f.language.value)
  }

  /** No scope, or one with a wildcard at its end, excludes nothing; an exact one those rows that have scopes without
      it. */
  predicate ScopeAllows(scope: Option<string>, r: Row) {
    || scope in {None, Some("")}
    || scope.value[|scope.value| - 1] == '*'
    || r.scopes.None? || scope.value in r.scopes.value
  }

  lemma HoldBoth(a: seq<Clause>, b: seq<Clause>, r: Row)
    ensures AllHold(a + b, r) <==> AllHold(a, r) && AllHold(b, r)
  {
    forall c | c in a || c in b ensures c in a + b {
    }
  }

  lemma HoldOne(c: Clause, r: Row)
    ensures AllHold([c], r) <==> Holds(c, r)
  {
    assert c in [c];
  }

  predicate AllHold(cs: seq<Clause>, r: Row) {
    forall c | c in cs :: Holds(c, r)
  }

  lemma WantedBySelects(f: Filters, norm: string -> string, r: Row)
    ensures AllHold(WantedBy(f, norm), r) <==> Selected(f, norm, r)
  {
    var t := if f.fileType.Some? then [TypeIs(f.fileType.value)] else [];
    var p := if f.prefix.Some? then [PathLike(EscapeLike(f.prefix.value) + "%")] else [];
    var a := if f.after.Some? then [IndexedFrom(norm(f.after.value))] else [];
    var b := if f.before.Some? then [IndexedTo(norm(f.before.value))] else [];
    var l := if f.language.Some? then [LanguageIs(f.language.value)] else [];
    HoldBoth(t, p, r);
    HoldBoth(t + p, a, r);
    HoldBoth(t + p + a, b, r);
    HoldBoth(t + p + a + b, l, r);
    HoldOne(if t == [] then TypeIs("") else t[0], r);
    HoldOne(if p == [] then TypeIs("") else p[0], r);
    HoldOne(if a == [] then TypeIs("") else a[0], r);
    HoldOne(if b == [] then TypeIs("") else b[0], r);
    HoldOne(if l == [] then TypeIs("") else l[0], r);
    if f.prefix.Some? {
      LikeEscapedIsPrefix(r.path, f.prefix.value);
    }
  }

  /** The clauses hold of exactly the rows the filters and the scope select. */
  lemma ClausesSelectTheRows(filters: Option<Filters>, scope: Option<string>, norm: string -> string, r: Row)
    ensures AllHold(Wanted(filters, scope, norm), r) <==>
            (filters.Some? ==> Selected(filters.value, norm, r)) && ScopeAllows(scope, r)
  {
    var s := if scope.Some? && scope.value != "" && !Wildcard(scope.value) then [InScope(scope.value)] else [];
    if filters.Some? {
      WantedBySelects(filters.value, norm, r);
    }
    if s != [] {
      HoldOne(s[0], r);
    }
    HoldBoth(if filters.Some? then WantedBy(filters.value, norm) else [], s, r);
  }
}

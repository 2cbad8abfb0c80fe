/** How SQL reads a condition on the chunk table: LIKE patterns, string literals, words, comparisons and AND.  Nothing
    here knows how a condition was built. */
module SqlConditions {
  import opened Options
  import opened Sorting

  /** The columns a condition may name. */
  datatype Row = Row(fileType: string, path: string, indexedAt: string, language: string, scopes: Option<set<string>>)

  function Column(r: Row, name: string): Option<string> {
    if name == "file_type" then Some(r.fileType)
    else if name == "source_path" then Some(r.path)
    else if name == "indexed_at" then Some(r.indexedAt)
    else if name == "language" then Some(r.language)
    else None
  }

  predicate Special(c: char) {
    c == '%' || c == '_' || c == '\\'
  }

  /** `s LIKE p ESCAPE '\'` (section 8.5 of ISO/IEC 9075-2); a pattern with a stray escape matches nothing. */
  predicate Like(s: string, p: string)
    decreases |p|, |s|
  {
    if p == [] then s == []
    else if p[0] == '\\' then |p| > 1 && Special(p[1]) && s != [] && s[0] == p[1] && Like(s[1..], p[2..])
    else if p[0] == '%' then Like(s, p[1..]) || (s != [] && Like(s[1..], p))
    else s != [] && (p[0] == '_' || s[0] == p[0]) && Like(s[1..], p[1..])
  }

  // ------------------------------------------------------------------ literals

  datatype Read = Read(value: string, rest: string)

  /** The rest of a literal after its opening quote; a doubled quote stands for one. */
  function ReadBody(t: string): Option<Read> {
    if t == [] then None
    else if t[0] == '\'' && (|t| == 1 || t[1] != '\'') then Some(Read([], t[1..]))
    else
      var r := ReadBody(if t[0] == '\'' then t[2..] else t[1..]);
      if r.None? then None else Some(Read([t[0]] + r.value.value, r.value.rest))
  }

  lemma {:induction false} ReadBodyShrinks(t: string)
    ensures ReadBody(t).Some? ==> |ReadBody(t).value.rest| < |t|
  {
    if t != [] && !(t[0] == '\'' && (|t| == 1 || t[1] != '\'')) {
      ReadBodyShrinks(if t[0] == '\'' then t[2..] else t[1..]);
    }
  }

  /** SQL text as characters outside literals and literal values. */
  datatype Token = Ch(c: char) | Lit(value: string)

  /** None for an unterminated literal. */
  function Tokenize(t: string): Option<seq<Token>>
    decreases |t|
  {
    if t == [] then Some([])
    else if t[0] == '\'' then
      ReadBodyShrinks(t[1..]);
      var r := ReadBody(t[1..]);
      if r.None? then None else Before(Lit(r.value.value), Tokenize(r.value.rest))
    else Before(Ch(t[0]), Tokenize(t[1..]))
  }

  function Before(a: Token, rest: Option<seq<Token>>): Option<seq<Token>> {
    if rest.None? then None else Some([a] + rest.value)
  }

  // ------------------------------------------------------------------ words

  /** A word or a punctuation mark of the text, or the value of a literal. */
  datatype Lexeme = Word(word: string) | Text(text: string)

  predicate Punctuation(c: char) {
    c == '(' || c == ')' || c == ','
  }

  function Flush(word: string): seq<Lexeme> {
    if word == "" then [] else [Word(word)]
  }

  /** Words end at blanks, punctuation and literals; `word` is the one begun so far. */
  function Lex(ts: seq<Token>, word: string): seq<Lexeme>
    decreases |ts|
  {
    if ts == [] then Flush(word)
    else if ts[0].Lit? then Flush(word) + [Text(ts[0].value)] + Lex(ts[1..], "")
    else if ts[0].c == ' ' then Flush(word) + Lex(ts[1..], "")
    else if Punctuation(ts[0].c) then Flush(word) + [Word([ts[0].c])] + Lex(ts[1..], "")
    else Lex(ts[1..], word + [ts[0].c])
  }

  // ------------------------------------------------------------------ conditions

  /** Whether a row meets a comparison, and what follows it. */
  datatype Verdict = Verdict(holds: bool, rest: seq<Lexeme>)

  function Compare(r: Row, ls: seq<Lexeme>): Option<Verdict>
    requires |ls| >= 3 && ls[0].Word? && Column(r, ls[0].word).Some? && ls[1].Word? && ls[2].Text?
  {
    var x, v := Column(r, ls[0].word).value, ls[2].text;
    if ls[1].word == "=" then Some(Verdict(x == v, ls[3..]))
    else if ls[1].word == ">=" then Some(Verdict(x == v || Less(v, x), ls[3..]))
    else if ls[1].word == "<=" then Some(Verdict(x == v || Less(x, v), ls[3..]))
    else if ls[1].word == "LIKE" && |ls| >= 5 && ls[3] == Word("ESCAPE") && ls[4] == Text("\\") then
      Some(Verdict(Like(x, v), ls[5..]))
    else None
  }

  const ScopeTest := [Word("("), Word("scopes"), Word("IS"), Word("NULL"), Word("OR"),
                      Word("list_has"), Word("("), Word("scopes"), Word(",")]

  /** A column compared with a literal, or the test that the scopes are null or hold a literal. */
  function Comparison(r: Row, ls: seq<Lexeme>): (v: Option<Verdict>)
    ensures v.Some? ==> |v.value.rest| < |ls|
  {
    if |ls| >= 3 && ls[0].Word? && Column(r, ls[0].word).Some? && ls[1].Word? && ls[2].Text? then Compare(r, ls)
    else if |ls| >= 12 && ls[..9] == ScopeTest && ls[9].Text? && ls[10..12] == [Word(")"), Word(")")] then
      Some(Verdict(r.scopes.None? || ls[9].text in r.scopes.value, ls[12..]))
    else None
  }

  /** Comparisons joined by AND; None for a text that is no such condition. */
  function Condition(r: Row, ls: seq<Lexeme>): Option<bool>
    decreases |ls|
  {
    var first := Comparison(r, ls);
    if first.None? then None
    else if first.value.rest == [] then Some(first.value.holds)
    else if first.value.rest[0] != Word("AND") then None
    else
      var others := Condition(r, first.value.rest[1..]);
      if others.None? then None else Some(first.value.holds && others.value)
  }

  /** Whether a row meets the text of a condition; without any text every row does. */
  function Evaluate(where: string, r: Row): Option<bool> {
    if where == "" then Some(true)
    else
      var ts := Tokenize(where);
      if ts.None? then None else Condition(r, Lex(ts.value, ""))
  }
}

/** The shell's tokens: gettoken and peek move a cursor through the line; Lex is the sequence of tokens
    they see. A line has no NUL inside; the one after its end is not part of it. */
module ShellLexer {
  import opened Wrappers

  datatype Kind = Bar | LParen | RParen | Semi | Amp | Lt | Gt | GtGt | Word

  /** A token with the positions where it starts and ends. */
  datatype Tok = Tok(kind: Kind, q: nat, eq: nat)

  predicate IsSpace(c: char) {
    c == ' ' || c == '\t' || c == '\r' || c == '\n' || c == '\U{B}'
  }

  predicate IsSymbol(c: char) {
    c == '<' || c == '|' || c == '>' || c == '&' || c == ';' || c == '(' || c == ')'
  }

  /** The character a symbol starts with. */
  function Lead(k: Kind): char
    requires k != Word
  {
    match k
    case Bar => '|'
    case LParen => '('
    case RParen => ')'
    case Semi => ';'
    case Amp => '&'
    case Lt => '<'
    case Gt => '>'
    case GtGt => '>'
  }

  /** The first position from s on that is not white space. */
  function Skip(line: string, s: nat): (r: nat)
    requires s <= |line|
    ensures s <= r <= |line| && (r < |line| ==> !IsSpace(line[r]))
    ensures forall k :: s <= k < r ==> IsSpace(line[k])
    decreases |line| - s
  {
    if s < |line| && IsSpace(line[s]) then Skip(line, s + 1) else s
  }

  /** Where the word around s ends. */
  function WordEnd(line: string, s: nat): (r: nat)
    requires s <= |line|
    ensures s <= r <= |line| && (r < |line| ==> IsSpace(line[r]) || IsSymbol(line[r]))
    ensures forall k :: s <= k < r ==> !IsSpace(line[k]) && !IsSymbol(line[k])
    decreases |line| - s
  {
    if s < |line| && !IsSpace(line[s]) && !IsSymbol(line[s]) then WordEnd(line, s + 1) else s
  }

  function TokenAt(line: string, q: nat): (t: Tok)
    requires q < |line| && !IsSpace(line[q])
    ensures t.q == q < t.eq <= |line|
    ensures if t.kind == Word then !IsSymbol(line[q]) && t.eq == WordEnd(line, q) else Lead(t.kind) == line[q]
  {
    match line[q]
    case '|' => Tok(Bar, q, q + 1)
    case '(' => Tok(LParen, q, q + 1)
    case ')' => Tok(RParen, q, q + 1)
    case ';' => Tok(Semi, q, q + 1)
    case '&' => Tok(Amp, q, q + 1)
    case '<' => Tok(Lt, q, q + 1)
    case '>' => if q + 1 < |line| && line[q + 1] == '>' then Tok(GtGt, q, q + 2) else Tok(Gt, q, q + 1)
    case _ => Tok(Word, q, WordEnd(line, q))
  }

  /** The tokens from position s on. */
  function Lex(line: string, s: nat): seq<Tok>
    requires s <= |line|
    decreases |line| - s
  {
    var q := Skip(line, s);
    if q == |line| then [] else [TokenAt(line, q)] + Lex(line, TokenAt(line, q).eq)
  }

  lemma LexSkips(line: string, s: nat)
    requires s <= |line|
    ensures Lex(line, Skip(line, s)) == Lex(line, s)
  {
    SkipTwice(line, s);
  }

  lemma {:induction false} SkipTwice(line: string, s: nat)
    requires s <= |line|
    ensures Skip(line, Skip(line, s)) == Skip(line, s)
  {
  }

  method SkipSpace(line: string, s: nat) returns (r: nat)
    requires s <= |line|
    ensures r == Skip(line, s)
  {
    r := s;
    while r < |line| && IsSpace(line[r])
      invariant s <= r <= |line| && Skip(line, r) == Skip(line, s)
    {
      r := r + 1;
    }
  }

  /** The next token, and the cursor at the one after it. */
  method Gettoken(line: string, s: nat) returns (ret: Option<Kind>, q: nat, eq: nat, s': nat)
    requires s <= |line|
    ensures s <= s' <= |line|
    ensures ret.None? ==> Lex(line, s) == Lex(line, s') == []
    ensures ret.Some? ==> Lex(line, s) == [Tok(ret.value, q, eq)] + Lex(line, s')
  {
    q := SkipSpace(line, s);
    var e := q;
    if e == |line| {
      ret := None;
    } else {
      match line[e] {
        case '|' => ret, e := Some(Bar), e + 1;
        case '(' => ret, e := Some(LParen), e + 1;
        case ')' => ret, e := Some(RParen), e + 1;
        case ';' => ret, e := Some(Semi), e + 1;
        case '&' => ret, e := Some(Amp), e + 1;
        case '<' => ret, e := Some(Lt), e + 1;
        case '>' =>
          ret, e := Some(Gt), e + 1;
          if e < |line| && line[e] == '>' {
            ret, e := Some(GtGt), e + 1;
          }
        case _ =>
          ret := Some(Word);
          while e < |line| && !IsSpace(line[e]) && !IsSymbol(line[e])
            invariant q <= e <= |line| && WordEnd(line, e) == WordEnd(line, q)
          {
            e := e + 1;
          }
      }
      assert Tok(ret.value, q, e) == TokenAt(line, q);
    }
    eq := e;
    s' := SkipSpace(line, e);
    LexSkips(line, e);
  }

  /** The kinds of token that start with one of these symbols. */
  predicate StartsWith(k: Kind, toks: string) {
    k != Word && Lead(k) in toks
  }

  /** Whether the next token starts with one of the symbols in toks; the cursor skips white space. */
  method Peek(line: string, s: nat, toks: string) returns (b: bool, s': nat)
    requires s <= |line| && forall j :: 0 <= j < |toks| ==> IsSymbol(toks[j])
    ensures s <= s' <= |line| && Lex(line, s') == Lex(line, s)
    ensures b <==> Lex(line, s) != [] && StartsWith(Lex(line, s)[0].kind, toks)
    ensures Lex(line, s) == [] <==> s' == |line|
  {
    s' := SkipSpace(line, s);
    LexSkips(line, s);
    b := s' < |line| && line[s'] in toks;
  }

  /** The text of a token: one symbol, >>, or a word that goes on as long as it can. */
  ghost predicate TextOk(line: string, t: Tok) {
    && t.q < t.eq <= |line|
    && match t.kind {
         case Word =>
           && (forall k :: t.q <= k < t.eq ==> !IsSpace(line[k]) && !IsSymbol(line[k]))
           && (t.eq < |line| ==> IsSpace(line[t.eq]) || IsSymbol(line[t.eq]))
         case GtGt => line[t.q..t.eq] == ">>"
         case Gt => line[t.q..t.eq] == ">" && (t.eq < |line| ==> line[t.eq] != '>')
         case Bar => line[t.q..t.eq] == "|"
         case LParen => line[t.q..t.eq] == "("
         case RParen => line[t.q..t.eq] == ")"
         case Semi => line[t.q..t.eq] == ";"
         case Amp => line[t.q..t.eq] == "&"
         case Lt => line[t.q..t.eq] == "<"
       }
  }

  /** From s to where the j-th token starts, or to the end of the line, there is white space only. */
  ghost predicate GapBefore(line: string, s: nat, ts: seq<Tok>, j: nat)
    requires j <= |ts|
  {
    var from, to := if j == 0 then s else ts[j - 1].eq, if j == |ts| then |line| else ts[j].q;
    from <= to <= |line| && forall k :: from <= k < to ==> IsSpace(line[k])
  }

  /** The tokens are the line without its white space, in order, each as long as it can be. */
  lemma {:induction false} LexIsLine(line: string, s: nat)
    requires s <= |line|
    ensures forall j :: 0 <= j < |Lex(line, s)| ==> TextOk(line, Lex(line, s)[j])
    ensures forall j :: 0 <= j <= |Lex(line, s)| ==> GapBefore(line, s, Lex(line, s), j)
    decreases |line| - s
  {
    var q := Skip(line, s);
    var ts := Lex(line, s);
    if q < |line| {
      var t := TokenAt(line, q);
      TokenText(line, q);
      var rest := Lex(line, t.eq);
      assert ts == [t] + rest;
      hide Lex, TextOk, IsSpace, TokenAt;
      LexIsLine(line, t.eq);
      forall j | 0 <= j < |ts| ensures TextOk(line, ts[j]) {
        assert j > 0 ==> ts[j] == rest[j - 1];
      }
      forall j | 0 <= j <= |ts| ensures GapBefore(line, s, ts, j) {
        assert j > 0 ==> GapBefore(line, t.eq, rest, j - 1);
      }
    }
  }

  lemma TokenText(line: string, q: nat)
    requires q < |line| && !IsSpace(line[q])
    ensures TextOk(line, TokenAt(line, q)) && TokenAt(line, q).q == q
  {
  }

  /** Words end where no word can go on, so the NUL written there lies in no word. */
  ghost predicate Spans(line: string, t: Tok) {
    && t.q < t.eq <= |line|
    && (t.kind == Word ==>
          && (forall k :: t.q <= k < t.eq ==> !IsSpace(line[k]) && !IsSymbol(line[k]))
          && (t.eq < |line| ==> IsSpace(line[t.eq]) || IsSymbol(line[t.eq])))
  }

  lemma {:induction false} LexSpans(line: string, s: nat)
    requires s <= |line|
    ensures forall j :: 0 <= j < |Lex(line, s)| ==> Spans(line, Lex(line, s)[j])
    decreases |line| - s
  {
    var q := Skip(line, s);
    if q < |line| {
      var t := TokenAt(line, q);
      LexSpans(line, t.eq);
      forall j | 0 <= j < |Lex(line, s)| ensures Spans(line, Lex(line, s)[j]) {
        assert j > 0 ==> Lex(line, s)[j] == Lex(line, t.eq)[j - 1];
      }
    }
  }
}

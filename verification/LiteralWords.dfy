// Splitting a hook command into literal words (cmd/pitot/doctor_kimi.go,
// kimiLiteralWords): the byte loop, and the small lexical grammar it accepts exactly.
module LiteralWords {
  import opened Envelopes

  const NUL: char := 0 as char

  predicate IsBlank(c: char) {
    c == ' ' || c == '\t'
  }

  predicate IsQuote(c: char) {
    c == '\'' || c == '"'
  }

  // Refused wherever it stands.
  predicate NeverLiteral(windows: bool, c: char) {
    || c == '\\' || c == '\n' || c == '\r' || c == NUL
    || (windows && !('a' <= c <= 'z' || 'A' <= c <= 'Z' || '0' <= c <= '9'
                     || c == '-' || c == '_' || c == '/' || c == '.' || c == ':' || IsBlank(c)))
  }

  // Shell syntax outside quotes.
  predicate IsOperator(c: char) {
    || c == '$' || c == '`' || c == '|' || c == '&' || c == ';' || c == '<' || c == '>' || c == '(' || c == ')'
    || c == '*' || c == '?' || c == '[' || c == ']' || c == '#' || c == '~' || c == '{' || c == '}'
  }

  predicate Expands(quote: char, c: char) {
    quote == '"' && (c == '$' || c == '`')
  }

  // What remains to be split: `word` is the word under way, `quote` the open quote.
  function Split(windows: bool, s: string, word: Option<string>, quote: Option<char>): Option<seq<string>>
    requires quote.Some? ==> word.Some?
    decreases |s|
  {
    if s == "" then
      if quote.Some? then None else Some(if word.Some? then [word.value] else [])
    else
      var c, so := s[0], if word.Some? then word.value else "";
      if NeverLiteral(windows, c) then None
      else if quote.Some? then
        if c == quote.value then Split(windows, s[1..], word, None)
        else if Expands(quote.value, c) then None
        else Split(windows, s[1..], Some(so + [c]), quote)
      else if IsBlank(c) then
        if word.None? then Split(windows, s[1..], None, None)
        else
          match Split(windows, s[1..], None, None)
          case None => None
          case Some(more) => Some([word.value] + more)
      else if IsQuote(c) then (if windows then None else Split(windows, s[1..], Some(so), Some(c)))
      else if IsOperator(c) then None
      else Split(windows, s[1..], Some(so + [c]), None)
  }

  function Then(words: seq<string>, more: Option<seq<string>>): Option<seq<string>> {
    match more
    case None => None
    case Some(m) => Some(words + m)
  }

  lemma NoWordsYet(more: Option<seq<string>>)
    ensures Then([], more) == more
  {
    if more.Some? {
      assert [] + more.value == more.value;
    }
  }

  method KimiLiteralWords(command: string, windows: bool) returns (found: Option<seq<string>>)
    ensures found == Split(windows, command, None, None)
  {
    hide NeverLiteral, IsOperator;
    var words: seq<string> := [];
    var word := "";
    var quote: Option<char> := None;
    var started := false;
    assert command[0..] == command;
    NoWordsYet(Split(windows, command, None, None));
    for i := 0 to |command|
      invariant quote.Some? ==> started
      invariant !started ==> word == ""
      invariant Split(windows, command, None, None)
             == Then(words, Split(windows, command[i..], if started then Some(word) else None, quote))
    {
      var c := command[i];
      assert command[i..][1..] == command[i + 1..];
      if NeverLiteral(windows, c) {
        return None;
      }
      if quote.Some? {
        if c == quote.value {
          quote := None;
        } else {
          if Expands(quote.value, c) {
            return None;
          }
          word := word + [c];
        }
        continue;
      }
      if IsBlank(c) {
        if started {
          ghost var more := Split(windows, command[i + 1..], None, None);
          if more.Some? {
            assert words + ([word] + more.value) == words + [word] + more.value;
          }
          words := words + [word];
          word := "";
          started := false;
        }
      } else if IsQuote(c) {
        if windows {
          return None;
        }
        quote, started := Some(c), true;
      } else if IsOperator(c) {
        return None;
      } else {
        word := word + [c];
        started := true;
      }
    }
    assert command[|command|..] == "";
    if quote.Some? {
      return None;
    }
    if started {
      words := words + [word];
    }
    assert words + [] == words;
    return Some(words);
  }

  // ----- The grammar -----

  datatype Token = Blank(c: char) | Bare(c: char) | Quoted(mark: char, text: string)

  predicate ValidToken(windows: bool, t: Token) {
    match t
    case Blank(c) => IsBlank(c)
    case Bare(c) => !NeverLiteral(windows, c) && !IsBlank(c) && !IsQuote(c) && !IsOperator(c)
    case Quoted(mark, text) =>
      && !windows && IsQuote(mark)
      && forall i :: 0 <= i < |text| ==> !NeverLiteral(false, text[i]) && text[i] != mark && !Expands(mark, text[i])
  }

  predicate ValidTokens(windows: bool, ts: seq<Token>) {
    forall i :: 0 <= i < |ts| ==> ValidToken(windows, ts[i])
  }

  function RenderToken(t: Token): string {
    match t
    case Blank(c) => [c]
    case Bare(c) => [c]
    case Quoted(mark, text) => [mark] + text + [mark]
  }

  function Render(ts: seq<Token>): string {
    if ts == [] then "" else RenderToken(ts[0]) + Render(ts[1..])
  }

  // Blanks separate; characters and quoted texts build the word under way.
  function WordsOf(ts: seq<Token>, word: Option<string>): seq<string> {
    if ts == [] then (if word.Some? then [word.value] else [])
    else
      var so := if word.Some? then word.value else "";
      match ts[0]
      case Blank(_) => (if word.Some? then [word.value] else []) + WordsOf(ts[1..], None)
      case Bare(c) => WordsOf(ts[1..], Some(so + [c]))
      case Quoted(_, text) => WordsOf(ts[1..], Some(so + text))
  }

  // ----- Every spelling is accepted, with its meaning -----

  lemma {:induction false} InsideQuotes(text: string, rest: string, word: string, mark: char)
    requires ValidToken(false, Quoted(mark, text))
    ensures Split(false, text + [mark] + rest, Some(word), Some(mark)) == Split(false, rest, Some(word + text), None)
    decreases |text|
  {
    hide NeverLiteral, IsOperator;
    var s := text + [mark] + rest;
    if text == "" {
      assert s[0] == mark && s[1..] == rest && word + "" == word;
      QuotesAreLiteral(mark);
    } else {
      assert s[0] == text[0] && s[1..] == text[1..] + [mark] + rest;
      InsideQuotes(text[1..], rest, word + [text[0]], mark);
      assert word + [text[0]] + text[1..] == word + text;
    }
  }

  lemma QuotesAreLiteral(mark: char)
    requires IsQuote(mark)
    ensures !NeverLiteral(false, mark)
  {
  }

  // The word under way after a token that does not end it.
  function Grown(t: Token, word: Option<string>): string
    requires !t.Blank?
  {
    (if word.Some? then word.value else "") + if t.Bare? then [t.c] else t.text
  }

  lemma OneToken(windows: bool, t: Token, rest: string, word: Option<string>)
    requires ValidToken(windows, t)
    ensures Split(windows, RenderToken(t) + rest, word, None)
         == if t.Blank? then Then(if word.Some? then [word.value] else [], Split(windows, rest, None, None))
            else Split(windows, rest, Some(Grown(t, word)), None)
  {
    hide NeverLiteral, IsOperator;
    var s := RenderToken(t) + rest;
    match t {
      case Blank(c) =>
        assert s[1..] == rest;
        BlankIsLiteral(windows, c);
        NoWordsYet(Split(windows, rest, None, None));
      case Bare(c) =>
        assert s[1..] == rest;
      case Quoted(mark, text) =>
        assert s[0] == mark && s[1..] == text + [mark] + rest;
        QuotesAreLiteral(mark);
        InsideQuotes(text, rest, if word.Some? then word.value else "", mark);
    }
  }

  lemma {:induction false} SpellingsAccepted(windows: bool, ts: seq<Token>, word: Option<string>)
    requires ValidTokens(windows, ts)
    ensures Split(windows, Render(ts), word, None) == Some(WordsOf(ts, word))
    decreases |ts|
  {
    if ts != [] {
      hide Split, ValidToken, RenderToken;
      OneToken(windows, ts[0], Render(ts[1..]), word);
      SpellingsAccepted(windows, ts[1..], if ts[0].Blank? then None else Some(Grown(ts[0], word)));
    } else {
      NothingLeft(windows, word);
    }
  }

  lemma NothingLeft(windows: bool, word: Option<string>)
    ensures Split(windows, "", word, None) == Some(WordsOf([], word))
  {
  }

  lemma BlankIsLiteral(windows: bool, c: char)
    requires IsBlank(c)
    ensures !NeverLiteral(windows, c) && !IsQuote(c)
  {
  }

  // ----- Everything accepted is such a spelling -----

  lemma {:induction false} ClosingQuote(s: string, word: string, mark: char) returns (n: nat)
    requires IsQuote(mark) && Split(false, s, Some(word), Some(mark)).Some?
    ensures n < |s| && s[n] == mark && ValidToken(false, Quoted(mark, s[..n]))
    ensures Split(false, s[n + 1..], Some(word + s[..n]), None) == Split(false, s, Some(word), Some(mark))
    decreases |s|
  {
    hide NeverLiteral, IsOperator;
    if s[0] == mark {
      n := 0;
      assert word + s[..0] == word;
    } else {
      var m := ClosingQuote(s[1..], word + [s[0]], mark);
      n := m + 1;
      assert s[..n] == [s[0]] + s[1..][..m];
      assert word + [s[0]] + s[1..][..m] == word + s[..n];
      assert s[1..][m + 1..] == s[n + 1..];
    }
  }

  // What acceptance says of the first character.
  lemma FirstCharacter(windows: bool, s: string, word: Option<string>)
    requires s != "" && Split(windows, s, word, None).Some?
    ensures var c, so := s[0], if word.Some? then word.value else "";
            && (IsQuote(c) ==> !windows && Split(false, s[1..], Some(so), Some(c)).Some?)
            && (IsBlank(c) ==> ValidToken(windows, Blank(c)) && Split(windows, s[1..], None, None).Some?)
            && (!IsBlank(c) && !IsQuote(c) ==>
                  ValidToken(windows, Bare(c)) && Split(windows, s[1..], Some(so + [c]), None).Some?)
  {
    hide NeverLiteral, IsOperator;
  }

  lemma TokenFirst(windows: bool, t: Token, more: seq<Token>)
    requires ValidToken(windows, t) && ValidTokens(windows, more)
    ensures ValidTokens(windows, [t] + more) && Render([t] + more) == RenderToken(t) + Render(more)
  {
    hide ValidToken, RenderToken;
    assert ([t] + more)[1..] == more;
  }

  lemma {:induction false} AcceptedSpells(windows: bool, s: string, word: Option<string>) returns (ts: seq<Token>)
    requires Split(windows, s, word, None).Some?
    ensures ValidTokens(windows, ts) && Render(ts) == s
    decreases |s|
  {
    hide Split, ValidToken, ValidTokens, Render;
    if s == "" {
      NoTokens(windows);
      return [];
    }
    FirstCharacter(windows, s, word);
    var c, so := s[0], if word.Some? then word.value else "";
    var more;
    if IsQuote(c) {
      var n := ClosingQuote(s[1..], so, c);
      more := AcceptedSpells(windows, s[1..][n + 1..], Some(so + s[1..][..n]));
      TokenFirst(windows, Quoted(c, s[1..][..n]), more);
      ts := [Quoted(c, s[1..][..n])] + more;
      assert s == [c] + s[1..][..n] + [c] + s[1..][n + 1..];
    } else {
      more := AcceptedSpells(windows, s[1..], if IsBlank(c) then None else Some(so + [c]));
      TokenFirst(windows, if IsBlank(c) then Blank(c) else Bare(c), more);
      ts := [if IsBlank(c) then Blank(c) else Bare(c)] + more;
      assert s == [c] + s[1..];
    }
  }

  lemma NoTokens(windows: bool)
    ensures ValidTokens(windows, []) && Render([]) == ""
  {
  }

  ghost predicate Spells(windows: bool, ts: seq<Token>, command: string) {
    ValidTokens(windows, ts) && Render(ts) == command
  }

  // A command is accepted exactly when it is spelled with blanks, literal
  // characters and closed quotes, and its words are what those spell.
  lemma AcceptsExactlyLiteral(windows: bool, command: string)
    ensures Split(windows, command, None, None).Some? <==> exists ts :: Spells(windows, ts, command)
    ensures forall ts :: Spells(windows, ts, command) ==> Split(windows, command, None, None) == Some(WordsOf(ts, None))
  {
    hide Split, ValidTokens;
    if Split(windows, command, None, None).Some? {
      var ts := AcceptedSpells(windows, command, None);
      assert Spells(windows, ts, command);
    }
    forall ts | Spells(windows, ts, command)
      ensures Split(windows, command, None, None) == Some(WordsOf(ts, None))
    {
      SpellingsAccepted(windows, ts, None);
    }
  }

  // ----- The characters by name -----

  // Which character each shell takes, alone and between double quotes.
  lemma OneCharacter(c: char)
    ensures Split(false, [c], None, None) ==
            if c in " \t" then Some([]) else if c in "\\\n\r\0'\"$`|&;<>()*?[]#~{}" then None else Some([[c]])
    ensures Split(true, [c], None, None) ==
            if c in " \t" then Some([])
            else if 'a' <= c <= 'z' || 'A' <= c <= 'Z' || '0' <= c <= '9' || c in "-_/.:" then Some([[c]])
            else None
    ensures c != '"' ==> Split(false, ['"', c, '"'], None, None) == if c in "\\\n\r\0$`" then None else Some([[c]])
    ensures c != '\'' ==> Split(false, ['\'', c, '\''], None, None) == if c in "\\\n\r\0" then None else Some([[c]])
  {
    hide Split;
    Unquoted(false, c);
    Unquoted(true, c);
    if c != '"' {
      BetweenMarks('"', c);
    }
    if c != '\'' {
      BetweenMarks('\'', c);
    }
  }

  lemma Unquoted(windows: bool, c: char)
    ensures Split(windows, [c], None, None) ==
            if IsBlank(c) then Some([])
            else if NeverLiteral(windows, c) || IsQuote(c) || IsOperator(c) then None
            else Some([[c]])
  {
    hide IsOperator;
    assert [c][1..] == "" && "" + [c] == [c];
  }

  lemma BetweenMarks(mark: char, c: char)
    requires IsQuote(mark) && c != mark
    ensures Split(false, [mark, c, mark], None, None) ==
            if NeverLiteral(false, c) || Expands(mark, c) then None else Some([[c]])
  {
    hide IsOperator;
    assert [mark, c, mark][1..] == [c, mark] && [c, mark][1..] == [mark] && [mark][1..] == "";
    assert Split(false, "", Some([c]), None) == Some([[c]]);
    assert "" + [c] == [c];
    assert Split(false, [mark], Some([c]), Some(mark)) == Some([[c]]);
  }

  // ----- Quoted word lists -----

  // Words that single quotes can hold.
  predicate Quotable(w: string) {
    forall i :: 0 <= i < |w| ==> !NeverLiteral(false, w[i]) && w[i] != '\''
  }

  function QuoteTokens(words: seq<string>): seq<Token> {
    if words == [] then []
    else [Quoted('\'', words[0])] + (if |words| == 1 then [] else [Blank(' ')] + QuoteTokens(words[1..]))
  }

  // 'a' 'b' 'c'
  function QuoteList(words: seq<string>): string {
    if words == [] then ""
    else ['\''] + words[0] + ['\''] + (if |words| == 1 then "" else [' '] + QuoteList(words[1..]))
  }

  lemma {:induction false} QuotedListSpells(words: seq<string>)
    requires forall i :: 0 <= i < |words| ==> Quotable(words[i])
    ensures ValidTokens(false, QuoteTokens(words)) && Render(QuoteTokens(words)) == QuoteList(words)
    ensures WordsOf(QuoteTokens(words), None) == words
    decreases |words|
  {
    if words != [] {
      var ts := QuoteTokens(words);
      var first := Quoted('\'', words[0]);
      assert ValidToken(false, first);
      if |words| == 1 {
        assert ts == [first] && ts[1..] == [];
        assert RenderToken(first) + "" == QuoteList(words);
      } else {
        hide ValidToken, NeverLiteral;
        var more := QuoteTokens(words[1..]);
        QuotedListSpells(words[1..]);
        assert ts[1..] == [Blank(' ')] + more && ts[1..][1..] == more;
        BlankToken();
        assert Render(ts[1..]) == [' '] + Render(more);
        assert "" + words[0] == words[0];
        assert words == [words[0]] + words[1..];
      }
    }
  }

  lemma BlankToken()
    ensures ValidToken(false, Blank(' '))
  {
  }

  // A list of single-quoted words survives.
  lemma QuotedWordsSurvive(words: seq<string>)
    requires forall i :: 0 <= i < |words| ==> Quotable(words[i])
    ensures Split(false, QuoteList(words), None, None) == Some(words)
  {
    QuotedListSpells(words);
    SpellingsAccepted(false, QuoteTokens(words), None);
  }
}

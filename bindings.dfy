/**
  Binding records of the settings file and the test that decides whether a
  record is bound to a given key symbol.
 */
module Bindings {
  import opened Text

  /** One entry of a section's `settings` list: an action name and its raw key value, e.g. `[q],[Q]`. */
  datatype Setting = Setting(name: string, value: string)

  /** One entry of the `sections` list: its name and its settings, in document order. */
  datatype Section = Section(name: string, settings: seq<Setting>)

  /** `f"[{s}]"`. */
  function Bracket(s: string): (r: string)
    ensures |r| == |s| + 2 && r[0] == '[' && r[|r| - 1] == ']' && r[1..|r| - 1] == s
  {
    "[" + s + "]"
  }

  /** Distinct labels give distinct bracketed tokens. */
  lemma BracketIsInjective(a: string, b: string)
    ensures Bracket(a) == Bracket(b) <==> a == b
  {
    if Bracket(a) == Bracket(b) {
      assert a == Bracket(a)[1..|a| + 1] == Bracket(b)[1..|b| + 1] == b;
    }
  }

  /**
    The three tokens a key symbol is looked up under: lower-cased, capitalised
    and verbatim, each in brackets. Labels are never empty (the capitalised
    form reads the first character).
   */
  function Candidates(symbol: string): (c: seq<string>)
    requires |symbol| > 0
    ensures |c| == 3
    ensures forall k :: 0 <= k < 3 ==> |c[k]| == |symbol| + 2 && c[k][0] == '[' && c[k][|symbol| + 1] == ']'
    ensures c[2][1..|symbol| + 1] == symbol
  {
    [Bracket(Lower(symbol)), Bracket(Capitalize(symbol)), Bracket(symbol)]
  }

  /** The tokens of a raw value: `value.split(',')`. */
  function Tokens(value: string): seq<string> {
    Split(value, ',')
  }

  /** A record with this raw value is bound to the key: some candidate is exactly one of its tokens. */
  predicate Matches(symbol: string, value: string)
    requires |symbol| > 0
  {
    exists e | e in Candidates(symbol) :: e in Tokens(value)
  }

  /** A record whose value is empty is bound to no key: `"".split(',')` is `[""]`. */
  lemma EmptyValueNeverMatches(symbol: string)
    requires |symbol| > 0
    ensures !Matches(symbol, "")
  {
    assert Tokens("") == [""];
  }

  /**
    The comma key is never found: its only candidate is `[,]`, and no token of
    a value split on commas can hold a comma.
   */
  lemma CommaKeyNeverMatches(value: string)
    ensures !Matches(",", value)
  {
    var c := Candidates(",");
    assert Lower(",") == "," && Capitalize(",") == ",";
    forall k | 0 <= k < 3 ensures c[k] !in Tokens(value) {
      assert c[k][1] == ',';
    }
  }

  /**
    A value assembled from comma-free tokens is bound to the key exactly when
    one of those tokens is one of the key's candidates.
   */
  lemma MatchesJoinedTokens(symbol: string, tokens: seq<string>)
    requires |symbol| > 0
    requires |tokens| > 0
    requires forall k :: 0 <= k < |tokens| ==> ',' !in tokens[k]
    ensures Matches(symbol, Join(tokens, ',')) <==> exists k :: 0 <= k < |tokens| && tokens[k] in Candidates(symbol)
  {
    SplitJoin(tokens, ',');
  }

  /** A value listing several keys is bound to the key when either part is. */
  lemma MatchesEitherPart(symbol: string, a: string, b: string)
    requires |symbol| > 0
    ensures Matches(symbol, a + "," + b) <==> Matches(symbol, a) || Matches(symbol, b)
  {
    SplitAppend(a, b, ',');
    assert a + "," + b == a + [','] + b;
  }

  /**
    Single-letter keys are found whatever the case of the letter in the
    file: the key is bound exactly when the lower-case or the upper-case
    bracketed letter is one of the tokens.
   */
  lemma LetterKeyIgnoresCase(c: char, value: string)
    requires IsUpperLetter(c) || IsLowerLetter(c)
    ensures Matches([c], value) <==>
      Bracket([LowerChar(c)]) in Tokens(value) || Bracket([UpperChar(c)]) in Tokens(value)
  {
    var cs := Candidates([c]);
    assert Lower([c]) == [LowerChar(c)];
    assert Capitalize([c]) == [UpperChar(c)];
    assert cs == [Bracket([LowerChar(c)]), Bracket([UpperChar(c)]), Bracket([c])];
    if IsUpperLetter(c) {
      assert UpperChar(c) == c;
    } else {
      assert LowerChar(c) == c;
    }
  }

  /** An upper-case letter in the layout (`Q`) is bound by its lower-case token (`[q]`) in the file. */
  lemma UpperKeyFindsLowerToken(c: char)
    requires IsUpperLetter(c)
    ensures Matches([c], Bracket([LowerChar(c)]))
  {
    var t := Bracket([LowerChar(c)]);
    assert ',' !in t by { assert t == ['[', LowerChar(c), ']']; }
    SplitWithoutSeparator(t, ',');
    LetterKeyIgnoresCase(c, t);
  }

  /** A lower-case letter in the layout (`a`) is bound by its upper-case token (`[A]`) in the file. */
  lemma LowerKeyFindsUpperToken(c: char)
    requires IsLowerLetter(c)
    ensures Matches([c], Bracket([UpperChar(c)]))
  {
    var t := Bracket([UpperChar(c)]);
    assert ',' !in t by { assert t == ['[', UpperChar(c), ']']; }
    SplitWithoutSeparator(t, ',');
    LetterKeyIgnoresCase(c, t);
  }

  /** `W` is bound by the two-token value `[w],[W]`. */
  lemma TwoTokenValue()
    ensures Matches("W", "[w],[W]")
  {
    MatchesEitherPart("W", "[w]", "[W]");
    UpperKeyFindsLowerToken('W');
    assert Bracket([LowerChar('W')]) == "[w]";
    assert "[w]" + "," + "[W]" == "[w],[W]";
  }

  /** A key is bound by a value holding exactly its own bracketed symbol. */
  lemma KeyFindsOwnToken(symbol: string)
    requires |symbol| > 0 && ',' !in symbol
    ensures Matches(symbol, Bracket(symbol))
  {
    var b := Bracket(symbol);
    assert ',' !in b by {
      assert b == "[" + symbol + "]";
    }
    SplitWithoutSeparator(b, ',');
    assert Candidates(symbol)[2] == b;
    assert b in Tokens(b);
  }

  /** A single-letter key is not bound by a value naming another letter, in either case. */
  lemma OtherLetterNotFound(c: char, d: char)
    requires IsUpperLetter(c) || IsLowerLetter(c)
    requires IsUpperLetter(d) || IsLowerLetter(d)
    requires LowerChar(c) != LowerChar(d)
    ensures !Matches([c], Bracket([d]))
  {
    var t := Bracket([d]);
    SplitWithoutSeparator(t, ',');
    LetterKeyIgnoresCase(c, t);
    OtherLetterTokens(c, d);
  }

  /** Neither case of one letter, bracketed, is the bracketed other letter. */
  lemma OtherLetterTokens(c: char, d: char)
    requires IsUpperLetter(c) || IsLowerLetter(c)
    requires IsUpperLetter(d) || IsLowerLetter(d)
    requires LowerChar(c) != LowerChar(d)
    ensures Bracket([LowerChar(c)]) != Bracket([d]) && Bracket([UpperChar(c)]) != Bracket([d])
  {
    assert LowerChar(c) != d && UpperChar(c) != d;
    assert Bracket([LowerChar(c)])[1] != Bracket([d])[1];
    assert Bracket([UpperChar(c)])[1] != Bracket([d])[1];
  }

  /**
    Case folding covers only the first letter: a multi-letter key written in
    capitals in the file (`[ESC]`) is not found for the symbol `esc`.
   */
  lemma MultiLetterKeyIsNotCaseFolded()
    ensures !Matches("esc", "[ESC]")
  {
    SplitWithoutSeparator("[ESC]", ',');
    var cs := Candidates("esc");
    assert cs[0][2] == 's' && cs[1][2] == 's' && cs[2][2] == 's';
    assert "[ESC]"[2] == 'S';
  }
}

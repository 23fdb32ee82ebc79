/**
 Backslash-escaped search values: `tokenize_string` of `parse_helpers.py`, and the characters and wildcards
 a value stands for.
 */
module SearchTokens {

  /** A token of `tokenize_string`. */
  datatype Token = Str(s: string) | Control(s: string)

  /** One match of the tokenizer's expression, or one character between matches. */
  datatype Piece = Char(c: char) | Wild(c: char) | Escape(c: char)

  /** A backslash with a character behind it that the expression's dot matches. */
  predicate IsEscape(v: string) {
    |v| > 1 && v[0] == '\\' && v[1] != '\n'
  }

  /** A value character by character: escaped characters are plain, unless they are in `escapes`. */
  function Pieces(v: string, controls: string, escapes: string): seq<Piece>
    decreases |v|
  {
    if v == "" then []
    else if v[0] in controls then [Wild(v[0])] + Pieces(v[1..], controls, escapes)
    else if IsEscape(v) then [if v[1] in escapes then Escape(v[1]) else Char(v[1])] + Pieces(v[2..], controls, escapes)
    else [Char(v[0])] + Pieces(v[1..], controls, escapes)
  }

  /** The tokens of pieces behind the text `text`, which is not yet part of a token. */
  function Grouped(text: string, ps: seq<Piece>): seq<Token>
    decreases |ps|
  {
    if ps == [] then Flushed(text)
    else
      match ps[0]
      case Char(c) => Grouped(text + [c], ps[1..])
      case Wild(c) => Flushed(text) + [Control([c])] + Grouped("", ps[1..])
      case Escape(c) => Flushed(text) + [Control(['\\', c])] + Grouped("", ps[1..])
  }

  function Flushed(text: string): seq<Token> {
    if text == "" then [] else [Str(text)]
  }

  function Tokens(v: string, controls: string, escapes: string): seq<Token> {
    Grouped("", Pieces(v, controls, escapes))
  }

  /** What is left to come out behind `tokens`, when the text `text` belongs in front of position `pos`. */
  ghost predicate Remaining(tokens: seq<Token>, text: string, v: string, pos: nat, controls: string, escapes: string) {
    pos <= |v| && tokens + Grouped(text, Pieces(v[pos..], controls, escapes)) == Tokens(v, controls, escapes)
  }

  lemma TextStep(tokens: seq<Token>, text: string, v: string, pos: nat, controls: string, escapes: string)
    requires Remaining(tokens, text, v, pos, controls, escapes) && pos < |v|
    requires v[pos] !in controls && !IsEscape(v[pos..])
    ensures Remaining(tokens, text + [v[pos]], v, pos + 1, controls, escapes)
  {
    assert v[pos..][0] == v[pos] && v[pos..][1..] == v[pos + 1..];
  }

  lemma ControlStep(tokens: seq<Token>, text: string, v: string, pos: nat, controls: string, escapes: string)
    requires Remaining(tokens, text, v, pos, controls, escapes) && pos < |v| && v[pos] in controls
    ensures Remaining(tokens + (Flushed(text) + [Control([v[pos]])]), "", v, pos + 1, controls, escapes)
  {
    assert v[pos..][0] == v[pos] && v[pos..][1..] == v[pos + 1..];
    var rest := Grouped("", Pieces(v[pos + 1..], controls, escapes));
    assert tokens + (Flushed(text) + [Control([v[pos]])]) + rest ==
      tokens + (Flushed(text) + [Control([v[pos]])] + rest);
  }

  lemma EscapeStep(tokens: seq<Token>, text: string, v: string, pos: nat, controls: string, escapes: string)
    requires Remaining(tokens, text, v, pos, controls, escapes) && pos < |v| && v[pos] !in controls
      && IsEscape(v[pos..])
    ensures pos + 2 <= |v|
    ensures v[pos + 1] in escapes ==>
      Remaining(tokens + (Flushed(text) + [Control(['\\', v[pos + 1]])]), "", v, pos + 2, controls, escapes)
    ensures v[pos + 1] !in escapes ==> Remaining(tokens, text + [v[pos + 1]], v, pos + 2, controls, escapes)
  {
    assert v[pos..][0] == v[pos] && v[pos..][1] == v[pos + 1] && v[pos..][2..] == v[pos + 2..];
    var rest := Grouped("", Pieces(v[pos + 2..], controls, escapes));
    var here := Flushed(text) + [Control(['\\', v[pos + 1]])];
    assert tokens + here + rest == tokens + (here + rest);
  }

  /** `tokenize_string`: the generator as a list. `pos` looks for the next match of the expression. */
  method TokenizeString(value: string, controls: string, escapes: string) returns (tokens: seq<Token>)
    requires '\\' !in controls
    ensures tokens == Tokens(value, controls, escapes)
  {
    hide Grouped, Pieces;
    tokens := [];
    var currentPos, currentString, pos := 0, "", 0;
    assert value[0..] == value && currentString + value[0..0] == "";
    while pos < |value|
      invariant currentPos <= pos <= |value|
      invariant Remaining(tokens, currentString + value[currentPos..pos], value, pos, controls, escapes)
    {
      ghost var text := currentString + value[currentPos..pos];
      if value[pos] !in controls && !IsEscape(value[pos..]) {
        TextStep(tokens, text, value, pos, controls, escapes);
        assert text + [value[pos]] == currentString + value[currentPos..pos + 1];
        pos := pos + 1;
        continue;
      }
      if currentPos < pos {
        currentString := currentString + value[currentPos..pos];
      }
      assert currentString == text;
      var end := if value[pos] == '\\' then pos + 2 else pos + 1;
      if value[pos] == '\\' {
        EscapeStep(tokens, text, value, pos, controls, escapes);
        assert value[pos..end] == ['\\', value[pos + 1]];
      } else {
        ControlStep(tokens, text, value, pos, controls, escapes);
        assert value[pos..end] == [value[pos]];
      }
      if value[pos] == '\\' && value[pos + 1] !in escapes {
        currentString := currentString + [value[pos + 1]];
      } else {
        tokens := Emit(tokens, currentString, Control(value[pos..end]));
        currentString := "";
      }
      currentPos, pos := end, end;
      assert currentString + value[currentPos..pos] == currentString;
    }
    assert value[currentPos..] == value[currentPos..pos] && value[pos..] == "";
    NothingLeft(currentString + value[currentPos..pos], controls, escapes);
    assert currentPos == |value| ==> currentString + value[currentPos..pos] == currentString;
    if currentPos < |value| {
      currentString := currentString + value[currentPos..];
    }
    assert tokens + Flushed(currentString) == Tokens(value, controls, escapes);
    if currentString != "" {
      tokens := tokens + [Str(currentString)];
    } else {
      assert tokens + [] == tokens;
    }
  }

  lemma NothingLeft(text: string, controls: string, escapes: string)
    ensures Grouped(text, Pieces("", controls, escapes)) == Flushed(text)
  {}

  /** The text before a control token, if there is any, and the token. */
  method Emit(tokens: seq<Token>, text: string, control: Token) returns (r: seq<Token>)
    ensures r == tokens + (Flushed(text) + [control])
  {
    r := tokens;
    if text != "" {
      r := r + [Str(text)];
    }
    r := r + [control];
  }
}

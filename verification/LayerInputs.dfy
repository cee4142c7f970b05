/**
 Lines and texts at which the two readers of G-code agree or part: lines that end in a carriage return,
 and the shortest texts for which the promises about layers fail.
 */
module LayerInputs {
  import opened JsNumber
  import opened Text
  import Viewer = GcodeViewer
  import opened LayerMap
  import opened LayerAgreement

  // ---------------------------------------------------------------- words

  predicate IsWord(s: string) {
    s != "" && forall c | c in s :: !IsBlank(c)
  }

  lemma {:induction false} OneWord(word: string)
    requires IsWord(word)
    ensures Words(word) == [word]
  {
    assert word == [word[0]] + word[1..];
    if |word| > 1 {
      OneWord(word[1..]);
      assert Words(word) == [[word[0]] + word[1..]];
    } else {
      assert word == [word[0]] && Words(word) == [[word[0]]] + Words("");
    }
  }

  lemma {:induction false} WordThenBlank(word: string, blank: char, rest: string)
    requires IsWord(word) && IsBlank(blank)
    ensures Words(word + [blank] + rest) == [word] + Words(rest)
  {
    var all := word + [blank] + rest;
    var tail := all[1..];
    assert all[0] == word[0] && tail == word[1..] + [blank] + rest && word == [word[0]] + word[1..];
    if |word| > 1 {
      WordThenBlank(word[1..], blank, rest);
      assert tail[0] == word[1] && all[1] == word[1];
      assert Words(all) == [[word[0]] + Words(tail)[0]] + Words(tail)[1..];
    } else {
      assert tail == [blank] + rest && tail[1..] == rest && all[1] == blank && word == [word[0]];
      assert Words(tail) == Words(rest);
      assert Words(all) == [[word[0]]] + Words(tail);
    }
  }

  lemma {:induction false} NoComment(raw: string)
    requires ';' !in raw
    ensures StripComment(raw) == raw && Code(raw) == raw && Viewer.StripComments(raw) == raw
  {
    if raw != "" {
      NoComment(raw[1..]);
      assert raw == [raw[0]] + raw[1..];
    }
  }

  /** A line of two words. */
  lemma TwoWords(first: string, second: string)
    requires IsWord(first) && IsWord(second) && ';' !in first + " " + second
    ensures Parts(first + " " + second) == [first, second] == Words(Code(first + " " + second))
  {
    NoComment(first + " " + second);
    WordThenBlank(first, ' ', second);
    OneWord(second);
  }

  // ---------------------------------------------------------------- a carriage return at the end

  lemma {:induction false} TrailingReturn(code: string)
    ensures Words(code + "\r") == Words(code)
  {
    var all := code + "\r";
    if code == "" {
      assert all[1..] == "";
    } else {
      TrailingReturn(code[1..]);
      assert all[1..] == code[1..] + "\r" && all[0] == code[0];
    }
  }

  lemma SplitReturn(code: string)
    ensures var pieces := Split(code, ' ');
            Split(code + "\r", ' ') == pieces[..|pieces| - 1] + [pieces[|pieces| - 1] + "\r"]
  {
    hide Split, Glue;
    SplitConcat(code, "\r", ' ');
    SplitClean("\r", ' ');
    GlueShape(Split(code, ' '), ["\r"]);
  }

  /** `parseFloat` reads as far as the number goes. */
  ghost predicate IgnoresReturn(pf: ParseFloat) {
    forall s: string :: pf(s + "\r") == pf(s)
  }

  lemma ArgsReturn(cfg: Viewer.Config, tokens: seq<string>)
    requires IgnoresReturn(cfg.parseFloat) && tokens != []
    ensures var last := |tokens| - 1;
            var args, longer := Viewer.ArgsOf(cfg, tokens), Viewer.ArgsOf(cfg, tokens[..last] + [tokens[last] + "\r"]);
            forall key | key != '\r' :: (key in longer <==> key in args) && (key in args ==> longer[key] == args[key])
  {
    var last := |tokens| - 1;
    var token := tokens[last];
    LastToken(cfg, tokens[..last], token);
    LastToken(cfg, tokens[..last], token + "\r");
    assert tokens == tokens[..last] + [token];
    TokenReturn(cfg, token);
    hide *;
  }

  lemma TokenReturn(cfg: Viewer.Config, token: string)
    requires IgnoresReturn(cfg.parseFloat)
    ensures if token == "" then Lower((token + "\r")[0]) == '\r'
            else (token + "\r")[0] == token[0] && cfg.parseFloat((token + "\r")[1..]) == cfg.parseFloat(token[1..])
  {
    if token != "" {
      assert (token + "\r")[1..] == token[1..] + "\r";
    }
  }

  lemma LastToken(cfg: Viewer.Config, front: seq<string>, token: string)
    ensures Viewer.ArgsOf(cfg, front + [token])
            == if token == "" then Viewer.ArgsOf(cfg, front)
               else Viewer.ArgsOf(cfg, front)[Lower(token[0]) := cfg.parseFloat(token[1..])]
  {
    assert (front + [token])[..|front|] == front;
  }

  lemma DecodeWithoutComment(cfg: Viewer.Config, line: string)
    requires ';' !in line
    ensures var tokens := Split(line, ' ');
            Viewer.Decode(cfg, line) == Viewer.CommandOf(UpperAll(tokens[0]), Viewer.ArgsOf(cfg, tokens[1..]))
  {
    NoComment(line);
  }

  /**
   A plain line without a comment is read alike with a carriage return after it as well, unless it is a
   bare G0, G1 or G92.
   */
  lemma ReturnIsReadAlike(cfg: Viewer.Config, code: string)
    requires IsPlain(cfg.parseFloat, code) && IsAbsolute(code) && ';' !in code && IgnoresReturn(cfg.parseFloat)
    requires KindOf(Parts(code)).MoveLine? || KindOf(Parts(code)).Reset? ==> |Parts(code)| > 1
    ensures IsReadAlike(cfg, code + "\r")
  {
    var line, tokens := code + "\r", Split(code, ' ');
    hide KindOf, SameCoordinates, Coordinates, Viewer.CommandOf, Words, Viewer.Decode, Viewer.ArgsOf, Split, UpperAll,
      Viewer.StripComments, StripComment, Code, IgnoresReturn, IsPlainCode;
    NoComment(code);
    NoComment(line);
    DecodeWithoutComment(cfg, code);
    DecodeWithoutComment(cfg, line);
    TrailingReturn(code);
    SplitReturn(code);
    PlainIsReadAlike(cfg, code);
    PlainParts(cfg.parseFloat, code);
    assert Parts(line) == Parts(code);
    if |tokens| == 1 {
      SinglePiece(code);
      NoCommandEndsInReturn(tokens[0], Viewer.ArgsOf(cfg, []));
      assert Split(line, ' ')[1..] == [];
    } else {
      hide IsReadAlike;
      var rest := tokens[1..];
      assert Split(line, ' ')[0] == tokens[0];
      assert Split(line, ' ')[1..] == rest[..|rest| - 1] + [rest[|rest| - 1] + "\r"];
      ArgsReturn(cfg, rest);
      SameCommandIsReadAlike(cfg, code, line, UpperAll(tokens[0]), Viewer.ArgsOf(cfg, rest),
                             Viewer.ArgsOf(cfg, Split(line, ' ')[1..]));
    }
  }

  lemma SinglePiece(code: string)
    requires |Split(code, ' ')| == 1 && forall c | c in code :: IsBlank(c) ==> c == ' '
    ensures |Words(code)| <= 1
  {
    SplitAtSpaces(code);
    var piece := Split(code, ' ')[0];
    assert NonEmpty([piece][1..]) == [];
    hide Split, Words;
  }

  lemma NoCommandEndsInReturn(token: string, args: Viewer.Args)
    ensures Viewer.CommandOf(UpperAll(token + "\r"), args) == Viewer.Other
  {
    var cmd := UpperAll(token + "\r");
    assert cmd[|token|] == '\r';
  }

  lemma SameCommandIsReadAlike(
    cfg: Viewer.Config, code: string, line: string, cmd: string, args: Viewer.Args, longer: Viewer.Args)
    requires IsReadAlike(cfg, code) && Parts(line) == Parts(code)
    requires Viewer.Decode(cfg, code) == Viewer.CommandOf(cmd, args)
    requires Viewer.Decode(cfg, line) == Viewer.CommandOf(cmd, longer)
    requires forall key | key != '\r' :: (key in longer <==> key in args) && (key in args ==> longer[key] == args[key])
    ensures IsReadAlike(cfg, line)
  {
    hide KindOf, Parts, Viewer.Decode, Coordinates;
  }

  // ---------------------------------------------------------------- a comment before a carriage return

  lemma {:induction false} CommentIsKept(raw: string)
    requires raw != "" && raw[|raw| - 1] == '\r'
    ensures StripComment(raw) == raw
  {
    assert raw == [raw[0]] + raw[1..];
    if |raw| > 1 {
      CommentIsKept(raw[1..]);
      assert raw[|raw| - 1] in raw[1..];
    } else {
      assert raw[1..] == "";
    }
  }

  lemma {:induction false} CommentIsStripped(code: string, comment: string)
    requires ';' !in code && comment != "" && forall c | c in comment :: !IsLineTerminator(c)
    ensures Viewer.StripComments(code + ";" + comment + "\r") == code + "\r"
  {
    var line := code + ";" + comment + "\r";
    if code == "" {
      assert line[0] == ';' && line[1] == comment[0] && line[1..] == comment + "\r";
      SkipsComment(comment);
      assert Viewer.StripComments("\r") == "\r" by {
        NoComment("\r");
      }
      assert code + "\r" == "\r";
    } else {
      assert line[0] == code[0] && line[1..] == code[1..] + ";" + comment + "\r";
      CommentIsStripped(code[1..], comment);
      assert code + "\r" == [code[0]] + (code[1..] + "\r");
    }
  }

  lemma {:induction false} SkipsComment(comment: string)
    requires forall c | c in comment :: !IsLineTerminator(c)
    ensures Viewer.SkipToTerminator(comment + "\r") == "\r"
  {
    if comment == "" {
      assert comment + "\r" == "\r";
    } else {
      assert (comment + "\r")[1..] == comment[1..] + "\r";
      SkipsComment(comment[1..]);
    }
  }

  lemma {:induction false} PiecesAreOfText(s: string, piece: string, c: char)
    requires piece in Split(s, ' ') && c in piece
    ensures c in s
  {
    if s != "" {
      var rest := Split(s[1..], ' ');
      if s[0] == ' ' {
        if piece in rest {
          PiecesAreOfText(s[1..], piece, c);
        }
      } else if piece in rest[1..] {
        PiecesAreOfText(s[1..], piece, c);
      } else if c in rest[0] {
        PiecesAreOfText(s[1..], rest[0], c);
      }
    }
  }

  lemma {:induction false} NoTokenNoArgument(cfg: Viewer.Config, tokens: seq<string>, key: char)
    requires forall token | token in tokens && token != "" :: Lower(token[0]) != key
    ensures key !in Viewer.ArgsOf(cfg, tokens)
  {
    if tokens != [] {
      assert tokens[|tokens| - 1] in tokens;
      NoTokenNoArgument(cfg, tokens[..|tokens| - 1], key);
    }
  }

  lemma FourWords(a: string, b: string, c: string, d: string)
    requires IsWord(a) && IsWord(b) && IsWord(c) && IsWord(d)
    ensures Words(a + " " + b + " " + c + " " + d + "\r") == [a, b, c, d]
  {
    hide Words;
    var three := c + " " + d + "\r";
    var two := b + " " + three;
    assert a + " " + b + " " + c + " " + d + "\r" == a + [' '] + two;
    assert two == b + [' '] + three && three == c + [' '] + (d + "\r");
    WordThenBlank(a, ' ', two);
    WordThenBlank(b, ' ', three);
    WordThenBlank(c, ' ', d + "\r");
    TrailingReturn(d);
    OneWord(d);
  }

  /** A move to `x` with a comment that begins with the word `e`, and a carriage return at the end. */
  function CommentedMove(g: string, x: string, e: string): string {
    g + " " + x + " " + ";" + " " + e + "\r"
  }

  predicate HasNoE(s: string) {
    forall c | c in s :: Lower(c) != 'e' && c != ';'
  }

  /** The layer map reads the comment: the E in it belongs to its move. */
  lemma MapReadsComment(pf: ParseFloat, g: string, x: string, e: string)
    requires IsWord(g) && IsWord(x) && IsWord(e) && UpperAll(g) == "G1" && Upper(e[0]) == 'E' && pf(e[1..]).Fin?
    ensures var line := CommentedMove(g, x, e);
            CarriesE(pf, line) && 'e' in Coordinates(pf, Tail(Parts(line)))
  {
    hide Words, StripComment, Upper;
    CommentIsKept(CommentedMove(g, x, e));
    assert IsWord(";");
    FourWords(g, x, ";", e);
    var words := [x, ";", e];
    assert Tail([g, x, ";", e]) == words && words[..2] == [x, ";"] && words[2] == e;
    assert MoveTarget(pf, START, words).hasE;
    assert Lower(e[0]) == 'e' by {
      LowerOfUpperE(e[0]);
    }
    assert 'e' in Coordinates(pf, words);
  }

  lemma LowerOfUpperE(c: char)
    requires Upper(c) == 'E'
    ensures Lower(c) == 'e'
  {}

  /** The viewer strips it: no E. */
  lemma ViewerSkipsComment(cfg: Viewer.Config, g: string, x: string, e: string)
    requires IsWord(g) && IsWord(x) && IsWord(e) && HasNoE(g) && HasNoE(x)
    ensures var command := Viewer.Decode(cfg, CommentedMove(g, x, e)); command.Linear? ==> 'e' !in command.args
  {
    hide Split, Viewer.ArgsOf, Viewer.StripComments, Viewer.SkipToTerminator, UpperAll;
    var code, comment := g + " " + x + " ", " " + e;
    assert CommentedMove(g, x, e) == code + ";" + comment + "\r";
    assert forall c | c in code + "\r" :: Lower(c) != 'e';
    CommentIsStripped(code, comment);
    NoEInPieces(cfg, code + "\r");
  }

  lemma NoEInPieces(cfg: Viewer.Config, s: string)
    requires forall c | c in s :: Lower(c) != 'e'
    ensures 'e' !in Viewer.ArgsOf(cfg, Split(s, ' ')[1..])
  {
    hide Split, Lower;
    var tokens := Split(s, ' ');
    forall token | token in tokens[1..] && token != "" ensures Lower(token[0]) != 'e' {
      PiecesAreOfText(s, token, token[0]);
    }
    NoTokenNoArgument(cfg, tokens[1..], 'e');
  }

  /** A comment before a carriage return is read by the layer map only: its E belongs to one reader's move. */
  lemma CommentBeforeReturn(cfg: Viewer.Config)
    requires cfg.parseFloat("5").Fin?
    ensures var line := "G1 X5 ; E5\r";
            && CarriesE(cfg.parseFloat, line) && !IsReadAlike(cfg, line)
            && (Viewer.Decode(cfg, line).Linear? ==> 'e' !in Viewer.Decode(cfg, line).args)
  {
    assert "E5"[1..] == "5" && UpperAll("G1") == "G1";
    assert "G1 X5 ; E5\r" == CommentedMove("G1", "X5", "E5");
    hide Parts, Viewer.Decode, TargetOf, Coordinates, Words, CommentedMove, KindOf;
    MapReadsComment(cfg.parseFloat, "G1", "X5", "E5");
    ViewerSkipsComment(cfg, "G1", "X5", "E5");
  }

  // ---------------------------------------------------------------- blanks and tabs

  /** The viewer finds no command behind a leading blank, the layer map does. */
  lemma LeadingBlank(cfg: Viewer.Config, code: string)
    requires ';' !in code && KindOf(Words(code)).MoveLine?
    ensures !IsReadAlike(cfg, " " + code)
  {
    var line := " " + code;
    assert line[1..] == code;
    NoComment(line);
    assert Words(line) == Words(code);
    DecodeWithoutComment(cfg, line);
    assert Split(line, ' ')[0] == "";
    hide KindOf, Words, Split, Viewer.ArgsOf, Viewer.Decode;
  }

  /** A tab separates words for the layer map only. */
  lemma TabInMove(cfg: Viewer.Config, g: string, word: string)
    requires IsWord(g) && IsWord(word) && ';' !in g + "\t" + word && KindOf([g, word]).MoveLine?
    ensures !IsReadAlike(cfg, g + "\t" + word)
  {
    var line := g + "\t" + word;
    NoComment(line);
    WordThenBlank(g, '\t', word);
    OneWord(word);
    DecodeWithoutComment(cfg, line);
    SplitClean(line, ' ');
    assert UpperAll(line)[|g|] == '\t' && |UpperAll(line)| > |g| + 1;
    hide KindOf, Words, Split, Viewer.ArgsOf, Viewer.Decode;
  }

  lemma MoveWithBlank(cfg: Viewer.Config)
    ensures !IsReadAlike(cfg, " G1 X1")
  {
    hide IsReadAlike, Words;
    assert " G1 X1" == " " + ("G1" + " " + "X1") && UpperAll("G1") == "G1";
    TwoWords("G1", "X1");
    NoComment("G1" + " " + "X1");
    LeadingBlank(cfg, "G1" + " " + "X1");
  }

  lemma MoveWithTab(cfg: Viewer.Config)
    ensures !IsReadAlike(cfg, "G1\tX1")
  {
    hide IsReadAlike;
    assert "G1\tX1" == "G1" + "\t" + "X1" && UpperAll("G1") == "G1";
    TabInMove(cfg, "G1", "X1");
  }

  // ---------------------------------------------------------------- texts for which the promises fail

  lemma OneLine(line: string)
    requires '\n' !in line
    ensures Split(line, '\n') == [line] && Split(line + "\n", '\n') == [line, ""]
  {
    SplitClean(line, '\n');
    SplitConcat(line, "\n", '\n');
    assert Split("\n", '\n') == ["", ""] by {
      assert "\n"[1..] == "" && Split("", '\n') == [""];
    }
    assert line + "" == line;
    GlueShape([line], ["", ""]);
  }

  /** A text of one retraction: the viewer opens a layer for its segment, the layer map opens none. */
  lemma RetractionDisagrees(cfg: Viewer.Config)
    requires cfg.parseFloat("-1") == Fin(-1.0)
    ensures var text := "G1 E-1\n"; var lines := Split(text, '\n');
            && AllReadAlike(cfg, lines)
            && !SameLayers(Viewer.Feed(cfg, Viewer.INITIAL, text).layers,
                           LayerMapOf(cfg.parseFloat, text).layerOffsets, lines)
  {
    assert "G1 E-1" + "\n" == "G1 E-1\n";
    hide *;
    RetractionIsPlain(cfg.parseFloat, "G1 E-1");
    FirstRetractionDisagrees(cfg, "G1 E-1");
  }

  lemma FirstRetractionDisagrees(cfg: Viewer.Config, line: string)
    requires IsPlain(cfg.parseFloat, line) && IsAbsolute(line) && CarriesE(cfg.parseFloat, line) && '\n' !in line
    requires TargetOf(cfg.parseFloat, START, line).e <= 0.0
    ensures var text := line + "\n"; var lines := Split(text, '\n');
            && AllReadAlike(cfg, lines)
            && !SameLayers(Viewer.Feed(cfg, Viewer.INITIAL, text).layers,
                           LayerMapOf(cfg.parseFloat, text).layerOffsets, lines)
  {
    var pf := cfg.parseFloat;
    OneLine(line);
    PlainIsReadAlike(cfg, line);
    EmptyIsPlain(pf);
    PlainIsReadAlike(cfg, "");
    var lines := [line, ""];
    assert lines[..0] == [] && NoneCarriesE(pf, []) && ScanLines(pf, []) == START;
    assert (line + "\n")[|line|] == '\n';
    assert !Extrudes(pf, lines[..0], lines[0]);
    hide IsReadAlike, SameLayers, Viewer.Feed, LayerMapOf, CarriesE, Extrudes, Split, NoneCarriesE, IsPlain, TargetOf;
    assert !FirstEMoveExtrudes(pf, lines);
    DetectorsAgree(cfg, line + "\n");
  }

  lemma EmptyIsPlain(pf: ParseFloat)
    ensures IsPlain(pf, "") && IsAbsolute("")
  {
    assert Words("") == [] && Code("") == "";
  }

  lemma RetractionIsPlain(pf: ParseFloat, line: string)
    requires line == "G1 E-1" && pf("-1") == Fin(-1.0)
    ensures IsPlain(pf, line) && IsAbsolute(line) && CarriesE(pf, line) && '\n' !in line
    ensures TargetOf(pf, START, line).e == -1.0
  {
    assert line == "G1" + " " + "E-1" && "E-1"[1..] == "-1" && UpperAll("G1") == "G1";
    assert IsWord("G1") && IsWord("E-1");
    hide *;
    ExtrusionIsPlain(pf, "G1", "E-1", -1.0);
  }

  lemma ExtrusionIsPlain(pf: ParseFloat, g: string, word: string, e: real)
    requires IsWord(g) && IsWord(word) && ';' !in g + " " + word
    requires UpperAll(g) == "G1" && word[0] == 'E' && pf(word[1..]) == Fin(e)
    ensures var line := g + " " + word;
            && IsPlain(pf, line) && IsAbsolute(line) && CarriesE(pf, line) && '\n' !in line
            && TargetOf(pf, START, line).e == e
  {
    hide Words, Code, Parts, IsPlain, MoveTarget, UpperAll;
    MoveIsPlain(pf, g, word);
    TwoWords(g, word);
    OneArgument(pf, g, word);
  }

  lemma MoveIsPlain(pf: ParseFloat, g: string, word: string)
    requires IsWord(g) && IsWord(word) && ';' !in g + " " + word
    requires UpperAll(g) == "G1" && pf(word[1..]).Fin?
    ensures IsPlain(pf, g + " " + word) && '\n' !in g + " " + word
  {
    hide Words, Code, Parts, StripComment, Viewer.StripComments, UpperAll;
    var line := g + " " + word;
    TwoWords(g, word);
    NoComment(line);
    assert !BareSemicolon(line) by {
      assert line[|line| - 1] in line;
    }
    assert line[0] == g[0] && g[0] in g;
    assert [g, word][1..] == [word];
    forall c | c in line && IsBlank(c) ensures c == ' ' {
      assert c in g || c in word || c == ' ';
    }
    assert IsPlainCode(pf, line);
  }

  lemma OneArgument(pf: ParseFloat, g: string, word: string)
    ensures Tail([g, word]) == [word]
    ensures MoveTarget(pf, START, [word]) == MoveWord(pf, START, Target(0.0, 0.0, 0.0, 0.0, false), word)
  {
    assert [word][..0] == [];
  }

  /** A text of one move without extrusion: its command is recorded, but belongs to no layer. */
  lemma LeadShiftsCommands(pf: ParseFloat)
    requires pf("1") == Fin(1.0)
    ensures var text := "G1 Z1"; !Aligned(LayerMapOf(pf, text), Events(pf, Split(text, '\n')))
  {
    var line := "G1 Z1";
    OneLine(line);
    LeadIsRecorded(pf, line);
    assert [line][..0] == [] && Events(pf, []) == [] && ScanLines(pf, []) == START;
    var events := EventOf(pf, START, line);
    assert Events(pf, [line]) == events;
    assert events[..0] == [] && MovesOf(events[..0], 0) == [];
    assert MovesOf(events, 0) != [];
    AlignedExactlyWithoutLead(pf, line);
  }

  lemma LeadIsRecorded(pf: ParseFloat, line: string)
    requires line == "G1 Z1" && pf("1") == Fin(1.0)
    ensures EventOf(pf, START, line) == [Event(0, Move(0.0, 0.0, 1.0))]
  {
    assert line == "G1" + " " + "Z1" && "Z1"[1..] == "1" && UpperAll("G1") == "G1";
    hide Words, Parts, MoveTarget;
    TwoWords("G1", "Z1");
    OneArgument(pf, "G1", "Z1");
  }
}

/**
 What the layer map takes from the words of a text: the modes in force, the moves worth showing, and the
 lines at which layers begin.
 */
module LayerReading {
  import opened JsNumber
  import opened Text
  import opened LayerMap

  /** The first word of the line, in upper case, is one of these. */
  predicate Says(line: string, commands: set<string>) {
    var words := Words(StripComment(line));
    words != [] && UpperAll(words[0]) in commands
  }

  // ---------------------------------------------------------------- modes

  /** Of the lines that say one of `all`, the last one says one of `some`. */
  ghost predicate LastSays(lines: seq<string>, some: set<string>, all: set<string>) {
    exists i | 0 <= i < |lines| :: IsLastSaying(lines, i, some, all)
  }

  predicate IsLastSaying(lines: seq<string>, i: nat, some: set<string>, all: set<string>)
    requires i < |lines|
  {
    Says(lines[i], some) && forall k | i < k < |lines| :: !Says(lines[k], all)
  }

  lemma LastSaysSnoc(front: seq<string>, raw: string, some: set<string>, all: set<string>)
    ensures LastSays(front + [raw], some, all) <==> Says(raw, some) || (!Says(raw, all) && LastSays(front, some, all))
  {
    hide Says;
    var lines := front + [raw];
    assert lines[|front|] == raw && forall k | 0 <= k < |front| :: lines[k] == front[k];
    if Says(raw, some) {
      assert IsLastSaying(lines, |front|, some, all);
    } else if !Says(raw, all) && LastSays(front, some, all) {
      var i :| 0 <= i < |front| && IsLastSaying(front, i, some, all);
      assert IsLastSaying(lines, i, some, all);
    }
    if i :| 0 <= i < |lines| && IsLastSaying(lines, i, some, all) {
      assert i < |front| ==> IsLastSaying(front, i, some, all);
    }
  }

  lemma LineSetsModes(pf: ParseFloat, s: Scan, raw: string)
    ensures var after := ScanLine(pf, s, raw);
            && (after.relative <==> Says(raw, {"G91"}) || (!Says(raw, {"G90", "G91"}) && s.relative))
            && (after.relativeE
                <==> Says(raw, {"G91", "M83"}) || (!Says(raw, {"G90", "G91", "M82", "M83"}) && s.relativeE))
  {
    ResetKeepsRecord(pf, s, Tail(Parts(raw)));
    hide Words, StripComment, UpperAll, ResetTo, MoveTarget;
    assert "G90" != "G91" && "M82" != "M83";
  }

  /**
   X, Y and Z are added if and only if the last G90 or G91 is G91; E is if and only if the last of G90, G91,
   M82 and M83 is G91 or M83.
   */
  lemma {:induction false} ModesFollowWords(pf: ParseFloat, lines: seq<string>)
    ensures ScanLines(pf, lines).relative <==> LastSays(lines, {"G91"}, {"G90", "G91"})
    ensures ScanLines(pf, lines).relativeE <==> LastSays(lines, {"G91", "M83"}, {"G90", "G91", "M82", "M83"})
  {
    hide ScanLine, LastSays, Says;
    if lines == [] {
      NothingSaid({"G91"}, {"G90", "G91"});
      NothingSaid({"G91", "M83"}, {"G90", "G91", "M82", "M83"});
    } else {
      var front, raw := lines[..|lines| - 1], lines[|lines| - 1];
      assert lines == front + [raw];
      ModesFollowWords(pf, front);
      LineSetsModes(pf, ScanLines(pf, front), raw);
      LastSaysSnoc(front, raw, {"G91"}, {"G90", "G91"});
      LastSaysSnoc(front, raw, {"G91", "M83"}, {"G90", "G91", "M82", "M83"});
    }
  }

  lemma NothingSaid(some: set<string>, all: set<string>)
    ensures !LastSays([], some, all)
  {}

  // ---------------------------------------------------------------- moves

  /** A word with this letter and a number behind it. */
  predicate HasNumber(pf: ParseFloat, words: seq<string>, letter: char) {
    exists w | w in words :: w != "" && Upper(w[0]) == letter && pf(w[1..]).Fin?
  }

  /** The line is a move with an E that is a number. */
  predicate CarriesExtrusion(pf: ParseFloat, line: string) {
    Says(line, {"G0", "G1"}) && HasNumber(pf, Words(StripComment(line))[1..], 'E')
  }

  lemma {:induction false} TargetHasE(pf: ParseFloat, s: Scan, words: seq<string>)
    ensures MoveTarget(pf, s, words).hasE <==> HasNumber(pf, words, 'E')
  {
    if words != [] {
      var front, last := words[..|words| - 1], words[|words| - 1];
      TargetHasE(pf, s, front);
      assert words == front + [last];
      if HasNumber(pf, front, 'E') {
        var w :| w in front && w != "" && Upper(w[0]) == 'E' && pf(w[1..]).Fin?;
        assert w in words;
      }
      if last != "" && Upper(last[0]) == 'E' && pf(last[1..]).Fin? {
        assert last in words;
      }
    }
  }

  lemma MoveIsSaid(raw: string)
    ensures KindOf(Parts(raw)).MoveLine? <==> Says(raw, {"G0", "G1"})
    ensures Says(raw, {"G0", "G1"}) ==> Words(StripComment(raw)) != []
  {
    hide Words, StripComment, UpperAll;
  }

  /** The move a line adds to the record, with the layer it belongs to: where the nozzle is after the line. */
  lemma ShownExactly(pf: ParseFloat, lines: seq<string>, i: nat)
    requires i < |lines|
    ensures var before, after := ScanLines(pf, lines[..i]), ScanLines(pf, lines[..i + 1]);
            EventOf(pf, before, lines[i])
            == if CarriesExtrusion(pf, lines[i]) || (Says(lines[i], {"G0", "G1"}) && after.z != before.z)
               then [Event(|after.layerOffsets|, Move(after.x, after.y, after.z))] else []
  {
    hide *;
    NextLineRead(pf, lines, i);
    LineIsShown(pf, ScanLines(pf, lines[..i]), lines[i]);
  }

  lemma LineIsShown(pf: ParseFloat, s: Scan, raw: string)
    ensures var after := ScanLine(pf, s, raw);
            EventOf(pf, s, raw)
            == if CarriesExtrusion(pf, raw) || (Says(raw, {"G0", "G1"}) && after.z != s.z)
               then [Event(|after.layerOffsets|, Move(after.x, after.y, after.z))] else []
  {
    hide KindOf, Says, HasNumber, Words, StripComment, MoveTarget;
    MoveIsSaid(raw);
    TargetHasE(pf, s, Tail(Parts(raw)));
  }

  /** A layer begins exactly at a move that extrudes at another height than that of the current layer. */
  lemma LayerBeginsExactly(pf: ParseFloat, lines: seq<string>, i: nat)
    requires i < |lines|
    ensures var before, after := ScanLines(pf, lines[..i]), ScanLines(pf, lines[..i + 1]);
            if CarriesExtrusion(pf, lines[i]) && after.e > before.e && before.currentLayerZ != LayerAt(after.z)
            then after.layerOffsets == before.layerOffsets + [before.byteOffset]
                 && after.currentLayerZ == LayerAt(after.z)
            else after.layerOffsets == before.layerOffsets && after.currentLayerZ == before.currentLayerZ
  {
    hide ScanLines, ScanLine, CarriesExtrusion;
    NextLineRead(pf, lines, i);
    var s := ScanLines(pf, lines[..i]);
    if KindOf(Parts(lines[i])).MoveLine? {
      MoveBegins(pf, s, lines[i]);
    } else {
      OthersBeginNothing(pf, s, lines[i]);
    }
  }

  lemma MoveBegins(pf: ParseFloat, s: Scan, raw: string)
    requires KindOf(Parts(raw)).MoveLine?
    ensures var after := ScanLine(pf, s, raw);
            if CarriesExtrusion(pf, raw) && after.e > s.e && s.currentLayerZ != LayerAt(after.z)
            then after.layerOffsets == s.layerOffsets + [s.byteOffset] && after.currentLayerZ == LayerAt(after.z)
            else after.layerOffsets == s.layerOffsets && after.currentLayerZ == s.currentLayerZ
  {
    var t := MoveTarget(pf, s, Tail(Parts(raw)));
    MoveIsSaid(raw);
    TargetHasE(pf, s, Tail(Parts(raw)));
    MoveArrives(s, t);
    if BeginsLayer(s, t) {
      BeginningMove(s, t);
    } else {
      OtherMove(s, t);
    }
    hide KindOf, Says, HasNumber, Words, StripComment, MoveTarget, TakeMove;
  }

  lemma MoveArrives(s: Scan, t: Target)
    ensures TakeMove(s, t).e == t.e && TakeMove(s, t).z == t.z
  {}

  lemma OthersBeginNothing(pf: ParseFloat, s: Scan, raw: string)
    requires !KindOf(Parts(raw)).MoveLine?
    ensures !CarriesExtrusion(pf, raw)
    ensures var after := ScanLine(pf, s, raw);
            after.layerOffsets == s.layerOffsets && after.currentLayerZ == s.currentLayerZ
  {
    MoveIsSaid(raw);
    ResetKeepsRecord(pf, s, Tail(Parts(raw)));
    hide KindOf, Says, HasNumber, Words, StripComment, ResetTo;
  }
}

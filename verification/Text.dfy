/** The string operations of JavaScript that both G-code readers rely on. */
module Text {

  /** `s.split(sep)` for a one-character separator: never empty. */
  function Split(s: string, sep: char): (pieces: seq<string>)
    ensures |pieces| >= 1
    ensures forall i | 0 <= i < |pieces| :: sep !in pieces[i]
  {
    if s == "" then [""]
    else
      var rest := Split(s[1..], sep);
      if s[0] == sep then [""] + rest else [[s[0]] + rest[0]] + rest[1..]
  }

  /** The inverse of `Split`. */
  function Join(pieces: seq<string>, sep: char): string
    requires |pieces| >= 1
  {
    if |pieces| == 1 then pieces[0] else pieces[0] + [sep] + Join(pieces[1..], sep)
  }

  lemma {:induction false} SplitClean(s: string, sep: char)
    requires sep !in s
    ensures Split(s, sep) == [s]
  {
    if s != "" {
      SplitClean(s[1..], sep);
      assert s == [s[0]] + s[1..];
    }
  }

  /** The last piece of one text runs on into the first piece of the next. */
  function Glue(a: seq<string>, b: seq<string>): (glued: seq<string>)
    requires |a| >= 1 && |b| >= 1
    ensures |glued| == |a| + |b| - 1
  {
    if |a| == 1 then [a[0] + b[0]] + b[1..] else [a[0]] + Glue(a[1..], b)
  }

  lemma {:induction false} GlueShape(a: seq<string>, b: seq<string>)
    requires |a| >= 1 && |b| >= 1
    ensures Glue(a, b) == a[..|a| - 1] + [a[|a| - 1] + b[0]] + b[1..]
  {
    if |a| > 1 {
      GlueShape(a[1..], b);
      assert a[..|a| - 1] == [a[0]] + a[1..][..|a| - 2];
    }
  }

  lemma GlueAssociative(p: string, a: seq<string>, b: seq<string>)
    requires |a| >= 1 && |b| >= 1
    ensures Glue([p], Glue(a, b)) == Glue(Glue([p], a), b)
  {
    assert p + (a[0] + b[0]) == p + a[0] + b[0];
    if |a| > 1 {
      assert Glue([p], a)[1..] == a[1..];
      assert Glue(a, b)[0] == a[0];
    }
  }

  /** Splitting a concatenation glues the pieces of the two sides. */
  lemma {:induction false} SplitConcat(a: string, b: string, sep: char)
    ensures Split(a + b, sep) == Glue(Split(a, sep), Split(b, sep))
  {
    if a == "" {
      assert a + b == b;
      assert [""] [0] + Split(b, sep)[0] == Split(b, sep)[0];
    } else {
      SplitConcat(a[1..], b, sep);
      assert (a + b)[0] == a[0];
      assert (a + b)[1..] == a[1..] + b;
      var pt, pb := Split(a[1..], sep), Split(b, sep);
      GlueAfterNothing(pt, pb);
      GlueLonger(a[0], pt, pb);
      hide Glue;
    }
  }

  lemma GlueAfterNothing(a: seq<string>, b: seq<string>)
    requires |a| >= 1 && |b| >= 1
    ensures Glue([""] + a, b) == [""] + Glue(a, b)
  {
    assert ([""] + a)[1..] == a;
  }

  lemma GlueLonger(c: char, a: seq<string>, b: seq<string>)
    requires |a| >= 1 && |b| >= 1
    ensures var glued := Glue(a, b); Glue([[c] + a[0]] + a[1..], b) == [[c] + glued[0]] + glued[1..]
  {
    var longer := [[c] + a[0]] + a[1..];
    assert longer[1..] == a[1..];
    if |a| == 1 {
      assert [c] + (a[0] + b[0]) == [c] + a[0] + b[0];
    }
  }

  lemma JoinEmpty(pieces: seq<string>, sep: char)
    requires pieces != []
    ensures Join([""] + pieces, sep) == [sep] + Join(pieces, sep)
  {
    assert ([""] + pieces)[1..] == pieces;
  }

  lemma JoinLonger(pieces: seq<string>, c: char, sep: char)
    requires pieces != []
    ensures Join([[c] + pieces[0]] + pieces[1..], sep) == [c] + Join(pieces, sep)
  {
    assert ([[c] + pieces[0]] + pieces[1..])[1..] == pieces[1..];
  }

  lemma {:induction false} JoinSplit(s: string, sep: char)
    ensures Join(Split(s, sep), sep) == s
  {
    if s != "" {
      JoinSplit(s[1..], sep);
      var rest := Split(s[1..], sep);
      assert s == [s[0]] + s[1..];
      hide Join;
      if s[0] == sep {
        JoinEmpty(rest, sep);
      } else {
        JoinLonger(rest, s[0], sep);
      }
    }
  }

  /** The characters `.` does not match in a JavaScript regular expression. */
  predicate IsLineTerminator(c: char) {
    c == '\n' || c == '\r' || c == '\U{2028}' || c == '\U{2029}'
  }

  /** The characters that `\s` matches and `trim` removes. */
  predicate IsBlank(c: char) {
    || IsLineTerminator(c) || c == ' ' || c == '\t' || c == '\U{000B}' || c == '\U{000C}'
    || c == '\U{00A0}' || c == '\U{FEFF}' || c == '\U{1680}' || '\U{2000}' <= c <= '\U{200A}'
    || c == '\U{202F}' || c == '\U{205F}' || c == '\U{3000}'
  }

  /**
   Upper case of ASCII letters. Of the other characters only U+0131 and U+017F become such a letter alone, I
   and S: neither is in a command or a coordinate that the models compare in upper case.
   */
  function Upper(c: char): char {
    if 'a' <= c <= 'z' then c - 32 as char else c
  }

  /** Lower case of ASCII letters and of the Kelvin sign, the one other character that becomes such a letter alone. */
  function Lower(c: char): char {
    if 'A' <= c <= 'Z' then c + 32 as char else if c == '\U{212A}' then 'k' else c
  }

  function UpperAll(s: string): string {
    seq(|s|, i requires 0 <= i < |s| => Upper(s[i]))
  }

  function LowerAll(s: string): string {
    seq(|s|, i requires 0 <= i < |s| => Lower(s[i]))
  }

  /** `s.indexOf(sub) > -1`. */
  predicate Contains(s: string, sub: string) {
    exists i | 0 <= i <= |s| :: sub <= s[i..]
  }

  lemma ContainsExactly(s: string, sub: string)
    ensures Contains(s, sub) <==> exists before, after :: s == before + sub + after
  {
    if i :| 0 <= i <= |s| && sub <= s[i..] {
      assert s == s[..i] + sub + s[i + |sub|..];
    }
    if before, after :| s == before + sub + after {
      assert sub <= s[|before|..];
    }
  }

  const LOWER_CASE := "abcdefghijklmnopqrstuvwxyz"

  const UPPER_CASE := "ABCDEFGHIJKLMNOPQRSTUVWXYZ"

  /** Letter by letter the two cases belong together; other characters have one, the Kelvin sign apart. */
  lemma CasesCorrespond(c: char)
    ensures forall i | 0 <= i < 26 && (c == LOWER_CASE[i] || c == UPPER_CASE[i]) ::
              Upper(c) == UPPER_CASE[i] && Lower(c) == LOWER_CASE[i]
    ensures c !in LOWER_CASE && c !in UPPER_CASE ==> Upper(c) == c && (c != '\U{212A}' ==> Lower(c) == c)
  {
    assert |LOWER_CASE| == 26 && |UPPER_CASE| == 26;
    forall i | 0 <= i < 26
      ensures LOWER_CASE[i] == ('a' as int + i) as char && UPPER_CASE[i] == ('A' as int + i) as char
    {}
    if 'a' <= c <= 'z' {
      assert LOWER_CASE[c as int - 'a' as int] == c;
    }
    if 'A' <= c <= 'Z' {
      assert UPPER_CASE[c as int - 'A' as int] == c;
    }
  }

  /** `s.trim()` followed by `split(/\s+/)`: the maximal runs of non-blank characters. */
  function Words(s: string): (words: seq<string>)
    ensures forall i | 0 <= i < |words| :: words[i] != ""
    ensures s != "" && !IsBlank(s[0]) ==> words != []
  {
    if s == "" then []
    else
      var rest := Words(s[1..]);
      if IsBlank(s[0]) then rest
      else if |s| == 1 || IsBlank(s[1]) then [[s[0]]] + rest
      else [[s[0]] + rest[0]] + rest[1..]
  }

  /** The pieces that are not empty, in order. */
  function NonEmpty(pieces: seq<string>): seq<string> {
    if pieces == [] then []
    else if pieces[0] == "" then NonEmpty(pieces[1..])
    else [pieces[0]] + NonEmpty(pieces[1..])
  }

  /** Where the only blank is the space, splitting at spaces and dropping empties gives the words. */
  lemma {:induction false} SplitAtSpaces(s: string)
    requires forall c | c in s :: IsBlank(c) ==> c == ' '
    ensures NonEmpty(Split(s, ' ')) == Words(s)
    ensures s != "" && s[0] != ' ' ==>
              Split(s, ' ')[0] != "" && [Split(s, ' ')[0]] + NonEmpty(Split(s, ' ')[1..]) == Words(s)
    ensures s != "" && s[0] == ' ' ==> Split(s, ' ')[0] == ""
  {
    if s != "" {
      var tail := s[1..];
      SplitAtSpaces(tail);
      var rest := Split(tail, ' ');
      if s[0] == ' ' {
        assert ([""] + rest)[1..] == rest;
      } else {
        var glued := [[s[0]] + rest[0]] + rest[1..];
        assert glued[1..] == rest[1..];
        assert NonEmpty(glued) == [[s[0]] + rest[0]] + NonEmpty(rest[1..]);
        assert glued[0] != "";
        if tail == "" || tail[0] == ' ' {
          assert [s[0]] + rest[0] == [s[0]];
          assert NonEmpty(rest) == NonEmpty(rest[1..]);
        } else {
          assert !IsBlank(tail[0]);
          assert NonEmpty(rest[1..]) == Words(tail)[1..];
        }
      }
    }
  }
}

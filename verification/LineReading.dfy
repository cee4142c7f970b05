/**
 How both readers take a line apart: what counts as blank, where a line ends for a regular expression,
 what is a comment, and what is a word.
 */
module LineReading {
  import opened Text
  import GcodeViewer
  import LayerMap

  // ---------------------------------------------------------------- characters

  lemma TerminatorsAreFour(c: char)
    ensures IsLineTerminator(c) <==> c as int in {0x0A, 0x0D, 0x2028, 0x2029}
  {}

  lemma BlanksAre(c: char)
    ensures IsBlank(c)
            <==> c as int in {0x09, 0x0A, 0x0B, 0x0C, 0x0D, 0x20, 0xA0, 0x1680, 0x2000, 0x2001, 0x2002, 0x2003, 0x2004,
                              0x2005, 0x2006, 0x2007, 0x2008, 0x2009, 0x200A, 0x2028, 0x2029, 0x202F, 0x205F, 0x3000,
                              0xFEFF}
  {
    TerminatorsAreFour(c);
  }

  // ---------------------------------------------------------------- words

  predicate NoBlank(s: string) {
    forall c | c in s :: !IsBlank(c)
  }

  /** A text without blanks is one word. */
  lemma {:induction false} OneWord(s: string)
    requires NoBlank(s)
    ensures Words(s) == if s == "" then [] else [s]
  {
    hide IsBlank;
    if s != "" {
      OneWord(s[1..]);
      assert s[0] in s && (|s| > 1 ==> s[1] in s);
      assert s == [s[0]] + s[1..];
      if |s| > 1 {
        assert Words(s[1..]) == [s[1..]] && [s[1..]][1..] == [];
        assert Words(s) == [[s[0]] + s[1..]] + [];
      } else {
        assert s == [s[0]] && Words(s[1..]) == [] && Words(s) == [[s[0]]] + [];
      }
    }
  }

  /** A blank separates the words before it from those after it. */
  lemma {:induction false} WordsAround(a: string, blank: char, b: string)
    requires IsBlank(blank)
    ensures Words(a + [blank] + b) == Words(a) + Words(b)
  {
    hide IsBlank;
    var s := a + [blank] + b;
    if a == "" {
      assert s[0] == blank && s[1..] == b;
    } else {
      WordsAround(a[1..], blank, b);
      assert s[0] == a[0] && s[1..] == a[1..] + [blank] + b;
      var x, y := Words(a[1..]), Words(b);
      if IsBlank(a[0]) {
        assert Words(s) == x + y;
      } else if |a| == 1 || IsBlank(a[1]) {
        assert |a| == 1 ==> s[1] == blank;
        assert Words(s) == [[a[0]]] + (x + y) && Words(a) == [[a[0]]] + x;
      } else {
        assert s[1] == a[1] && a[1..] != "" && !IsBlank(a[1..][0]);
        assert x != [];
        FirstLengthens(a[0], x, y);
      }
    }
  }

  lemma FirstLengthens(c: char, x: seq<string>, y: seq<string>)
    requires x != []
    ensures [[c] + (x + y)[0]] + (x + y)[1..] == [[c] + x[0]] + x[1..] + y
  {
    assert (x + y)[1..] == x[1..] + y;
  }

  // ---------------------------------------------------------------- comments

  predicate NoTerminator(s: string) {
    forall c | c in s :: !IsLineTerminator(c)
  }

  /** For the layer map a comment begins at a semicolon with no terminator after it, up to the end. */
  predicate BeginsComment(raw: string, i: nat) {
    i < |raw| && raw[i] == ';' && NoTerminator(raw[i + 1..])
  }

  lemma CommentsOfRest(raw: string)
    requires raw != ""
    ensures forall i: nat :: BeginsComment(raw, i + 1) <==> BeginsComment(raw[1..], i)
    ensures BeginsComment(raw, 0) <==> raw[0] == ';' && forall c | c in raw[1..] :: !IsLineTerminator(c)
  {
    hide IsLineTerminator;
    forall i: nat ensures BeginsComment(raw, i + 1) <==> BeginsComment(raw[1..], i) {
      assert i < |raw| - 1 ==> raw[i + 2..] == raw[1..][i + 1..];
    }
  }

  /** The first comment goes with all that follows. */
  lemma {:induction false} FirstCommentGoes(raw: string, i: nat)
    requires BeginsComment(raw, i) && forall j: nat | j < i :: !BeginsComment(raw, j)
    ensures LayerMap.StripComment(raw) == raw[..i]
  {
    CommentsOfRest(raw);
    hide IsLineTerminator, BeginsComment;
    if i > 0 {
      forall j: nat | j < i - 1 ensures !BeginsComment(raw[1..], j) {
        assert !BeginsComment(raw, j + 1);
      }
      assert BeginsComment(raw, i - 1 + 1) && !BeginsComment(raw, 0);
      FirstCommentGoes(raw[1..], i - 1);
      assert raw[..i] == [raw[0]] + raw[1..][..i - 1];
    }
  }

  /** A line without a comment stays. */
  lemma {:induction false} NoCommentStays(raw: string)
    requires forall i: nat :: !BeginsComment(raw, i)
    ensures LayerMap.StripComment(raw) == raw
  {
    if raw != "" {
      CommentsOfRest(raw);
      hide IsLineTerminator, BeginsComment;
      assert !BeginsComment(raw, 0);
      forall j: nat ensures !BeginsComment(raw[1..], j) {
        assert !BeginsComment(raw, j + 1);
      }
      NoCommentStays(raw[1..]);
      assert raw == [raw[0]] + raw[1..];
    }
  }

  lemma {:induction false} SkipsTo(comment: string, rest: string)
    requires NoTerminator(comment) && (rest == "" || IsLineTerminator(rest[0]))
    ensures GcodeViewer.SkipToTerminator(comment + rest) == rest
  {
    hide IsLineTerminator;
    if comment == "" {
      assert comment + rest == rest;
    } else {
      assert (comment + rest)[0] == comment[0] && (comment + rest)[1..] == comment[1..] + rest;
      SkipsTo(comment[1..], rest);
    }
  }

  lemma {:induction false} FrontStays(front: string, rest: string)
    requires ';' !in front
    ensures GcodeViewer.StripComments(front + rest) == front + GcodeViewer.StripComments(rest)
  {
    hide GcodeViewer.SkipToTerminator, IsLineTerminator;
    if front == "" {
      assert front + rest == rest;
    } else {
      assert (front + rest)[0] == front[0] && (front + rest)[1..] == front[1..] + rest;
      FrontStays(front[1..], rest);
      assert front == [front[0]] + front[1..];
    }
  }

  /** For the viewer a comment ends before the next terminator, and what follows is read on. */
  lemma CommentGoes(front: string, comment: string, rest: string)
    requires ';' !in front && comment != "" && NoTerminator(comment) && (rest == "" || IsLineTerminator(rest[0]))
    ensures GcodeViewer.StripComments(front + ";" + comment + rest) == front + GcodeViewer.StripComments(rest)
  {
    var s := ";" + comment + rest;
    assert s[0] == ';' && s[1] == comment[0] && s[1..] == comment + rest;
    assert front + ";" + comment + rest == front + s;
    SkipsTo(comment, rest);
    FrontStays(front, s);
    hide IsLineTerminator;
  }

  /** A semicolon with nothing behind it stays. */
  lemma BareSemicolonStays(front: string, rest: string)
    requires ';' !in front && (rest == "" || IsLineTerminator(rest[0]))
    ensures GcodeViewer.StripComments(front + ";" + rest) == front + ";" + GcodeViewer.StripComments(rest)
  {
    var s := ";" + rest;
    assert s[0] == ';' && s[1..] == rest && front + ";" + rest == front + s;
    FrontStays(front, s);
    assert GcodeViewer.StripComments(s) == [';'] + GcodeViewer.StripComments(rest);
    assert front + ";" + GcodeViewer.StripComments(rest) == front + ([';'] + GcodeViewer.StripComments(rest));
    hide *;
  }
}

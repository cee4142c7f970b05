/** The Python string operations that the print callbacks use to compare file names. */
module PyText {

  predicate EndsWith(s: string, suffix: string) {
    |suffix| <= |s| && s[|s| - |suffix|..] == suffix
  }

  function DropEnd(s: string, n: nat): string
    requires n <= |s|
  {
    s[..|s| - n]
  }

  /** `s.split("/")[-1]` */
  function AfterLastSlash(s: string): string {
    if s == "" then ""
    else if '/' in s[1..] then AfterLastSlash(s[1..])
    else if s[0] == '/' then s[1..] else s
  }

  /** `s.replace(part, "")` */
  function Without(s: string, part: string): string
    requires part != ""
    decreases |s|
  {
    if s == "" then ""
    else if part <= s then Without(s[|part|..], part)
    else [s[0]] + Without(s[1..], part)
  }

  lemma {:induction false} WithoutAbsent(s: string, part: string)
    requires part != "" && part[0] !in s
    ensures Without(s, part) == s
  {
    if s != "" {
      WithoutAbsent(s[1..], part);
      assert s == [s[0]] + s[1..];
    }
  }

  lemma {:induction false} AfterLastSlashAbsent(s: string)
    requires '/' !in s
    ensures AfterLastSlash(s) == s
  {}

  /** `Path(name).stem` of a name without slashes: without the last suffix, a lone dot in front or behind being none. */
  function Stem(name: string): string {
    var i := LastDot(name);
    if 0 < i < |name| - 1 then name[..i] else name
  }

  function LastDot(s: string): (i: int)
    ensures -1 <= i < |s|
  {
    if s == "" then -1
    else if s[|s| - 1] == '.' then |s| - 1
    else LastDot(s[..|s| - 1])
  }

  // ---------------------------------------------------------------- what these operations mean

  lemma {:induction false} DotIsLast(front: string, back: string)
    requires '.' !in back
    ensures LastDot(front + "." + back) == |front|
    ensures LastDot(back) == -1
  {
    var s := front + "." + back;
    if back == "" {
      assert s[|s| - 1] == '.';
    } else {
      assert s[..|s| - 1] == front + "." + back[..|back| - 1];
      DotIsLast(front, back[..|back| - 1]);
    }
  }

  /** A suffix has something before its dot and something behind it. */
  lemma SuffixIsDropped(front: string, back: string)
    requires '.' !in back
    ensures Stem(front + "." + back) == if front != "" && back != "" then front else front + "." + back
    ensures Stem(back) == back
  {
    DotIsLast(front, back);
    assert (front + "." + back)[..|front|] == front;
    hide LastDot;
  }

  lemma EndsWithExactly(s: string, suffix: string)
    ensures EndsWith(s, suffix) <==> exists front :: s == front + suffix
  {
    if EndsWith(s, suffix) {
      assert s == DropEnd(s, |suffix|) + suffix;
    }
  }

  /** `last` is what follows the last slash of `path`, or all of it. */
  ghost predicate IsLastPart(path: string, last: string) {
    '/' !in last && (path == last || exists folder :: path == folder + "/" + last)
  }

  lemma AfterLastSlashExactly(path: string, last: string)
    ensures AfterLastSlash(path) == last <==> IsLastPart(path, last)
  {
    SlashIsCut(path);
    if IsLastPart(path, last) {
      if path == last {
        AfterLastSlashAbsent(path);
      } else {
        var folder :| path == folder + "/" + last;
        CutBehindSlash(folder, last);
      }
    }
  }

  lemma {:induction false} CutBehindSlash(folder: string, last: string)
    requires '/' !in last
    ensures AfterLastSlash(folder + "/" + last) == last
  {
    var path := folder + "/" + last;
    if folder == "" {
      assert path[1..] == last;
    } else {
      assert path[1..] == folder[1..] + "/" + last && path[|folder|] == '/';
      assert '/' in path[1..];
      CutBehindSlash(folder[1..], last);
    }
  }

  lemma {:induction false} SlashIsCut(path: string)
    ensures IsLastPart(path, AfterLastSlash(path))
  {
    if path != "" {
      var rest := path[1..];
      SlashIsCut(rest);
      assert path == [path[0]] + rest;
      var last := AfterLastSlash(rest);
      if '/' in rest {
        var folder :| rest == folder + "/" + last;
        assert path == ([path[0]] + folder) + "/" + last;
      } else if path[0] == '/' {
        assert path == "" + "/" + rest;
      }
    }
  }

  predicate Occurs(s: string, part: string, i: nat) {
    i + |part| <= |s| && s[i..i + |part|] == part
  }

  /** What does not occur is not taken out. */
  lemma {:induction false} WithoutNothing(s: string, part: string)
    requires part != "" && forall j | 0 <= j <= |s| :: !Occurs(s, part, j)
    ensures Without(s, part) == s
  {
    if s != "" {
      assert !Occurs(s, part, 0);
      forall j | 0 <= j <= |s| - 1 ensures !Occurs(s[1..], part, j) {
        assert !Occurs(s, part, j + 1);
      }
      WithoutNothing(s[1..], part);
      assert s == [s[0]] + s[1..];
    }
  }

  /** The first occurrence goes, and so on behind it. */
  lemma {:induction false} WithoutFirst(front: string, part: string, rest: string)
    requires part != "" && forall j | 0 <= j < |front| :: !Occurs(front + part + rest, part, j)
    ensures Without(front + part + rest, part) == front + Without(rest, part)
  {
    var s := front + part + rest;
    if front == "" {
      assert s[..|part|] == part && s[|part|..] == rest;
    } else {
      assert !Occurs(s, part, 0);
      var shorter := front[1..] + part + rest;
      assert s[1..] == shorter && s[0] == front[0];
      forall j | 0 <= j < |front| - 1 ensures !Occurs(shorter, part, j) {
        assert !Occurs(s, part, j + 1);
        OccursLater(s, part, j);
      }
      WithoutFirst(front[1..], part, rest);
      assert front == [front[0]] + front[1..];
      assert Without(s, part) == [front[0]] + (front[1..] + Without(rest, part));
    }
  }

  lemma OccursLater(s: string, part: string, j: nat)
    requires s != ""
    ensures Occurs(s[1..], part, j) <==> Occurs(s, part, j + 1)
  {
    if j + |part| <= |s| - 1 {
      assert s[1..][j..j + |part|] == s[j + 1..j + 1 + |part|];
    }
  }
}

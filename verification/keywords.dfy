/** Keyword derivation for speaker and source names
    (`AirfoilAsync.get_keywords`, `Airfoil._get_keywords`): every
    non-alphanumeric character becomes a space, the text is stripped and
    lower-cased, runs of spaces collapse to one, and the result is split on a
    single space. The lemmas show that this is the same as taking the maximal
    runs of alphanumerics, lower-cased, except that a name without any
    alphanumeric character yields one empty keyword. */
module Keywords {
  import opened Base
  import opened Text

  predicate HasAlnum(s: string) {
    exists i :: 0 <= i < |s| && IsAlnum(s[i])
  }

  /** A keyword as `get_keywords` produces it: non-empty, lower-case, alphanumeric. */
  predicate IsToken(w: string) {
    w != [] && forall i :: 0 <= i < |w| ==> IsAlnum(w[i]) && !IsUpper(w[i])
  }

  /** Only alphanumerics and plain spaces. */
  predicate Blanked(y: string) {
    forall i :: 0 <= i < |y| ==> IsAlnum(y[i]) || y[i] == ' '
  }

  /** Step one: every character that is not alphanumeric becomes a space. */
  function Blank(s: string): (r: string)
    ensures |r| == |s| && Blanked(r)
    ensures forall i :: 0 <= i < |s| ==> r[i] == (if IsAlnum(s[i]) then s[i] else ' ')
  {
    if s == [] then [] else [if IsAlnum(s[0]) then s[0] else ' '] + Blank(s[1..])
  }

  /** The text the source splits: blanked, stripped, lower-cased, collapsed. */
  function Normalized(name: string): string
  {
    Collapse(Lower(Strip(Blank(name))))
  }

  function GetKeywords(name: string): seq<string>
  {
    Split(Normalized(name), ' ')
  }

  /** Reference definition: the maximal runs of alphanumeric characters of
      `s`, in order, each lower-cased. */
  function Runs(s: string): seq<string>
  {
    if s == [] then []
    else
      var rest := Runs(s[1..]);
      if !IsAlnum(s[0]) then rest
      else if |s| > 1 && IsAlnum(s[1]) && rest != [] then [[ToLower(s[0])] + rest[0]] + rest[1..]
      else [[ToLower(s[0])]] + rest
  }

  /** A text that starts with an alphanumeric has a first run. */
  lemma RunsStart(s: string)
    requires s != [] && IsAlnum(s[0])
    ensures Runs(s) != []
  {
  }

  /** There is a run exactly when there is an alphanumeric, and every run is
      a keyword token. */
  lemma {:induction false} RunsShape(s: string)
    ensures Runs(s) != [] <==> HasAlnum(s)
    ensures forall k :: 0 <= k < |Runs(s)| ==> IsToken(Runs(s)[k])
  {
    if s != [] {
      RunsShape(s[1..]);
      assert HasAlnum(s) <==> IsAlnum(s[0]) || HasAlnum(s[1..]) by {
        if HasAlnum(s[1..]) {
          var i :| 0 <= i < |s[1..]| && IsAlnum(s[1..][i]);
          assert IsAlnum(s[i + 1]);
        }
        if HasAlnum(s) && !IsAlnum(s[0]) {
          var i :| 0 <= i < |s| && IsAlnum(s[i]);
          assert IsAlnum(s[1..][i - 1]);
        }
      }
      var rest := Runs(s[1..]);
      if IsAlnum(s[0]) && |s| > 1 && IsAlnum(s[1]) && rest != [] {
        var w := [ToLower(s[0])] + rest[0];
        assert IsToken(w) by {
          assert IsToken(rest[0]);
        }
        assert Runs(s) == [w] + rest[1..];
      }
    }
  }

  /** The alphanumeric characters of `s`, in order. */
  function Alnums(s: string): string
  {
    if s == [] then [] else (if IsAlnum(s[0]) then [s[0]] else []) + Alnums(s[1..])
  }

  /** The pieces of a split that are not empty. */
  function DropEmpty(xs: seq<string>): seq<string>
  {
    if xs == [] then [] else (if xs[0] == [] then [] else [xs[0]]) + DropEmpty(xs[1..])
  }

  /** The non-empty pieces between spaces. */
  function Fields(y: string): seq<string>
  {
    DropEmpty(Split(y, ' '))
  }

  lemma {:induction false} DropEmptyAppend(xs: seq<string>, ys: seq<string>)
    ensures DropEmpty(xs + ys) == DropEmpty(xs) + DropEmpty(ys)
  {
    if xs == [] {
      assert xs + ys == ys;
    } else {
      assert (xs + ys)[0] == xs[0] && (xs + ys)[1..] == xs[1..] + ys;
      DropEmptyAppend(xs[1..], ys);
    }
  }

  lemma FieldsEmpty()
    ensures Fields([]) == []
  {
    assert Split([], ' ') == [[]];
  }

  lemma {:induction false} FieldsAtSpace(u: string, z: string)
    ensures Fields(u + [' '] + z) == Fields(u) + Fields(z)
  {
    SplitAtSeparator(u, z, ' ');
    DropEmptyAppend(Split(u, ' '), Split(z, ' '));
  }

  lemma FieldsLeadingSpace(z: string)
    ensures Fields([' '] + z) == Fields(z)
  {
    FieldsAtSpace([], z);
    assert [] + [' '] + z == [' '] + z;
    FieldsEmpty();
  }

  lemma FieldsTrailingSpace(u: string)
    ensures Fields(u + [' ']) == Fields(u)
  {
    FieldsAtSpace(u, []);
    assert u + [' '] + [] == u + [' '];
    FieldsEmpty();
  }

  /** Behind a space-free prefix, replacing two spaces by one leaves the
      fields alone. */
  lemma {:induction false} FieldsSquashAfter(p: string, y: string)
    requires ' ' !in p
    ensures Fields(p + Squash(y, ' ', ' ')) == Fields(p + y)
    decreases |y|, 1
  {
    if |y| < 2 {
    } else if y[0] == ' ' {
      FieldsSquashSpace(p, y);
    } else {
      FieldsSquashWord(p, y);
    }
  }

  lemma {:induction false} FieldsSquashSpace(p: string, y: string)
    requires ' ' !in p && |y| >= 2 && y[0] == ' '
    ensures Fields(p + Squash(y, ' ', ' ')) == Fields(p + y)
    decreases |y|, 0
  {
    var r := y[1..];
    assert y == [' '] + r;
    if y[1] == ' ' {
      var t := y[2..];
      assert r == [' '] + t;
      var sq := Squash(t, ' ', ' ');
      assert Squash(y, ' ', ' ') == [' '] + sq;
      FieldsSquashAfter([], t);
      assert [] + sq == sq && [] + t == t;
      FieldsSpaceThen(p, sq);
      FieldsLeadingSpace(t);
      FieldsSpaceThen(p, r);
    } else {
      var sq := Squash(r, ' ', ' ');
      assert Squash(y, ' ', ' ') == [' '] + sq;
      FieldsSquashAfter([], r);
      assert [] + sq == sq && [] + r == r;
      FieldsSpaceThen(p, sq);
      FieldsSpaceThen(p, r);
    }
  }

  /** Fields after a space-led tail, as a two-argument fact. */
  lemma FieldsSpaceThen(p: string, z: string)
    ensures Fields(p + ([' '] + z)) == Fields(p) + Fields(z)
  {
    assert p + ([' '] + z) == p + [' '] + z;
    FieldsAtSpace(p, z);
  }

  lemma {:induction false} FieldsSquashWord(p: string, y: string)
    requires ' ' !in p && |y| >= 2 && y[0] != ' '
    ensures Fields(p + Squash(y, ' ', ' ')) == Fields(p + y)
    decreases |y|, 0
  {
    var sq := Squash(y[1..], ' ', ' ');
    var q := p + [y[0]];
    assert Squash(y, ' ', ' ') == [y[0]] + sq;
    FieldsSquashAfter(q, y[1..]);
    assert p + ([y[0]] + sq) == q + sq;
    assert p + y == q + y[1..];
  }

  lemma FieldsSquash(y: string)
    ensures Fields(Squash(y, ' ', ' ')) == Fields(y)
  {
    FieldsSquashAfter([], y);
    assert [] + y == y && [] + Squash(y, ' ', ' ') == Squash(y, ' ', ' ');
  }

  lemma {:induction false} FieldsCollapse(y: string)
    ensures Fields(Collapse(y)) == Fields(y)
    decreases |y|
  {
    if HasPair(y, ' ', ' ') {
      FieldsCollapse(Squash(y, ' ', ' '));
      FieldsSquash(y);
    }
  }

  lemma {:induction false} FieldsTrimLeft(y: string)
    requires Blanked(y)
    ensures Fields(TrimLeft(y)) == Fields(y)
  {
    if y != [] && IsSpace(y[0]) {
      assert y[0] == ' ' && y == [' '] + y[1..];
      FieldsTrimLeft(y[1..]);
      FieldsLeadingSpace(y[1..]);
    }
  }

  lemma {:induction false} FieldsTrimRight(y: string)
    requires Blanked(y)
    ensures Fields(TrimRight(y)) == Fields(y)
  {
    if y != [] && IsSpace(y[|y| - 1]) {
      var u := y[..|y| - 1];
      assert y[|y| - 1] == ' ' && y == u + [' '];
      FieldsTrimRight(u);
      FieldsTrailingSpace(u);
    }
  }

  lemma LowerSpace(c: char)
    ensures IsSpace(ToLower(c)) == IsSpace(c)
  {
  }

  lemma {:induction false} LowerTrimLeft(y: string)
    ensures Lower(TrimLeft(y)) == TrimLeft(Lower(y))
  {
    if y != [] {
      var ly := Lower(y);
      assert ly[0] == ToLower(y[0]) && ly[1..] == Lower(y[1..]);
      LowerSpace(y[0]);
      if IsSpace(y[0]) {
        LowerTrimLeft(y[1..]);
      }
    }
  }

  lemma LowerInit(y: string)
    requires y != []
    ensures Lower(y)[..|y| - 1] == Lower(y[..|y| - 1])
  {
  }

  lemma {:induction false} LowerTrimRight(y: string)
    ensures Lower(TrimRight(y)) == TrimRight(Lower(y))
  {
    if y != [] {
      LowerInit(y);
      LowerSpace(y[|y| - 1]);
      if IsSpace(y[|y| - 1]) {
        LowerTrimRight(y[..|y| - 1]);
      }
    }
  }

  /** The blanked, lower-cased name, split on spaces, is the reference runs. */
  lemma {:induction false} FieldsOfBlank(s: string)
    ensures Fields(Lower(Blank(s))) == Runs(s)
  {
    if s == [] {
      FieldsEmpty();
    } else {
      var y := Lower(Blank(s[1..]));
      FieldsOfBlank(s[1..]);
      assert Blank(s) == [Blank(s)[0]] + Blank(s[1..]);
      assert Lower(Blank(s)) == [Lower(Blank(s))[0]] + y;
      if !IsAlnum(s[0]) {
        assert Lower(Blank(s)) == [' '] + y;
        FieldsLeadingSpace(y);
      } else {
        FieldsWordStart(s[0], s[1..], y);
      }
    }
  }

  /** Fields of a text and of the same text behind a non-space character,
      in terms of the pieces of its split. */
  lemma FieldsCons(d: char, y: string)
    requires d != ' '
    ensures Fields([d] + y) == [[d] + Split(y, ' ')[0]] + DropEmpty(Split(y, ' ')[1..])
    ensures Fields(y) == DropEmpty([Split(y, ' ')[0]]) + DropEmpty(Split(y, ' ')[1..])
  {
    var sp := Split(y, ' ');
    assert Split([d] + y, ' ') == [[d] + sp[0]] + sp[1..] by {
      assert ([d] + y)[0] == d && ([d] + y)[1..] == y;
    }
    assert sp == [sp[0]] + sp[1..];
    DropEmptyAppend([sp[0]], sp[1..]);
    DropEmptyAppend([[d] + sp[0]], sp[1..]);
    assert DropEmpty([[d] + sp[0]]) == [[d] + sp[0]];
  }

  /** One alphanumeric in front of the blanked, lower-cased rest of a name. */
  lemma FieldsWordStart(c: char, rest: string, y: string)
    requires IsAlnum(c) && y == Lower(Blank(rest)) && Fields(y) == Runs(rest)
    ensures Fields([ToLower(c)] + y) == Runs([c] + rest)
  {
    var s := [c] + rest;
    assert s[0] == c && s[1..] == rest;
    var d := ToLower(c);
    FieldsCons(d, y);
    var sp := Split(y, ' ');
    if rest != [] && IsAlnum(rest[0]) {
      RunsStart(rest);
      assert y[0] != ' ';
      assert DropEmpty([sp[0]]) == [sp[0]];
      assert Runs(s) == [[d] + Runs(rest)[0]] + Runs(rest)[1..];
    } else {
      if rest != [] {
        assert Blank(rest)[0] == ' ';
        assert y[0] == ToLower(' ') == ' ';
      }
      assert sp[0] == [];
      assert DropEmpty([sp[0]]) == [];
      assert [d] + sp[0] == [d];
      assert Fields(y) == DropEmpty(sp[1..]);
      assert Runs(s) == [[d]] + Runs(rest);
    }
  }

  lemma {:induction false} LowerKeepsBlanked(y: string)
    requires Blanked(y)
    ensures Blanked(Lower(y))
  {
  }

  /** Collapse keeps the first and the last character. */
  lemma {:induction false} CollapseEnds(y: string)
    ensures |y| > 0 ==> |Collapse(y)| > 0 && Collapse(y)[0] == y[0]
    ensures |y| > 0 ==> Collapse(y)[|Collapse(y)| - 1] == y[|y| - 1]
    decreases |y|
  {
    if HasPair(y, ' ', ' ') {
      CollapseEnds(Squash(y, ' ', ' '));
    }
  }

  /** In a text with no doubled, leading or trailing space, every piece of
      the split is non-empty. */
  lemma {:induction false} SplitTidy(y: string)
    requires !HasPair(y, ' ', ' ')
    requires y == [] || y[|y| - 1] != ' '
    ensures forall k :: 1 <= k < |Split(y, ' ')| ==> Split(y, ' ')[k] != []
  {
    if y != [] {
      var z := y[1..];
      forall i | 0 <= i < |z| - 1
        ensures !(z[i] == ' ' && z[i + 1] == ' ')
      {
        assert z[i] == y[i + 1] && z[i + 1] == y[i + 2];
      }
      SplitTidy(z);
      if y[0] == ' ' {
        assert z != [];
        assert z[0] != ' ' by {
          assert y[0] == ' ' && y[1] == z[0];
        }
      }
    }
  }

  lemma {:induction false} DropEmptyKeepsAll(xs: seq<string>)
    requires forall k :: 0 <= k < |xs| ==> xs[k] != []
    ensures DropEmpty(xs) == xs
  {
    if xs != [] {
      DropEmptyKeepsAll(xs[1..]);
      assert xs == [xs[0]] + xs[1..];
    }
  }

  lemma TrimLeftKeepsBlanked(y: string)
    requires Blanked(y)
    ensures Blanked(TrimLeft(y))
  {
    var k := |y| - |TrimLeft(y)|;
    forall i | 0 <= i < |y| - k
      ensures IsAlnum(y[k..][i]) || y[k..][i] == ' '
    {
      assert y[k..][i] == y[k + i];
    }
  }

  lemma FieldsStrip(y: string)
    requires Blanked(y)
    ensures Fields(Strip(y)) == Fields(y)
  {
    FieldsTrimLeft(y);
    TrimLeftKeepsBlanked(y);
    FieldsTrimRight(TrimLeft(y));
  }

  lemma LowerStrip(y: string)
    ensures Lower(Strip(y)) == Strip(Lower(y))
  {
    LowerTrimLeft(y);
    LowerTrimRight(TrimLeft(y));
  }

  /** Normalizing keeps the fields of the name, which are its runs. */
  lemma FieldsNormalized(name: string)
    ensures Fields(Normalized(name)) == Runs(name)
  {
    var b := Blank(name);
    LowerStrip(b);
    LowerKeepsBlanked(b);
    FieldsStrip(Lower(b));
    FieldsCollapse(Lower(Strip(b)));
    FieldsOfBlank(name);
  }

  /** A stripped text starts and ends with a non-space. */
  lemma StripEnds(y: string)
    ensures Strip(y) == [] || (!IsSpace(Strip(y)[0]) && !IsSpace(Strip(y)[|Strip(y)| - 1]))
  {
    var t := TrimLeft(y);
    var r := TrimRight(t);
    if r != [] {
      assert r[0] == t[0];
    }
  }

  /** Collapsing a text that starts and ends with a non-space leaves one
      with no doubled, leading or trailing space. */
  lemma CollapseTidy(y: string)
    requires y == [] || (y[0] != ' ' && y[|y| - 1] != ' ')
    ensures !HasPair(Collapse(y), ' ', ' ')
    ensures Collapse(y) == [] || (Collapse(y)[0] != ' ' && Collapse(y)[|Collapse(y)| - 1] != ' ')
  {
    CollapseEnds(y);
    if y == [] {
      assert !HasPair(y, ' ', ' ');
    }
  }

  /** The normalized name has no doubled, leading or trailing space. */
  lemma NormalizedTidy(name: string)
    ensures !HasPair(Normalized(name), ' ', ' ')
    ensures Normalized(name) == [] || (Normalized(name)[0] != ' ' && Normalized(name)[|Normalized(name)| - 1] != ' ')
  {
    var b := Blank(name);
    LowerStrip(b);
    StripEnds(Lower(b));
    CollapseTidy(Lower(Strip(b)));
  }

  /** The keyword list equals the reference runs when the name holds at least
      one alphanumeric, and is `['']` otherwise. */
  lemma KeywordsAreRuns(name: string)
    ensures HasAlnum(name) ==> GetKeywords(name) == Runs(name)
    ensures !HasAlnum(name) ==> GetKeywords(name) == [[]]
  {
    var n := Normalized(name);
    FieldsNormalized(name);
    NormalizedTidy(name);
    RunsShape(name);
    SplitTidy(n);
    if n == [] {
      assert Split(n, ' ') == [[]];
      FieldsEmpty();
    } else {
      assert Split(n, ' ')[0] != [];
      DropEmptyKeepsAll(Split(n, ' '));
    }
  }

  /** For a name with an alphanumeric character every keyword is a non-empty,
      lower-case alphanumeric token. */
  lemma KeywordsAreTokens(name: string)
    requires HasAlnum(name)
    ensures forall k :: 0 <= k < |GetKeywords(name)| ==> IsToken(GetKeywords(name)[k])
  {
    KeywordsAreRuns(name);
    RunsShape(name);
  }

  /** Concatenating the runs gives back the alphanumerics of `s`, lower-cased. */
  lemma {:induction false} RunsKeepContent(s: string)
    ensures Flatten(Runs(s)) == Lower(Alnums(s))
  {
    if s != [] {
      RunsKeepContent(s[1..]);
      var rest := Runs(s[1..]);
      if IsAlnum(s[0]) {
        assert Lower([s[0]] + Alnums(s[1..])) == [ToLower(s[0])] + Lower(Alnums(s[1..]));
        if |s| > 1 && IsAlnum(s[1]) {
          assert rest == [rest[0]] + rest[1..];
          assert Flatten(rest) == rest[0] + Flatten(rest[1..]);
          assert Flatten(Runs(s)) == ([ToLower(s[0])] + rest[0]) + Flatten(rest[1..]);
        } else {
          assert Flatten(Runs(s)) == [ToLower(s[0])] + Flatten(rest);
        }
      }
    }
  }

  /** No character is lost or invented: the keywords concatenate to the
      lower-cased alphanumerics of the name. */
  lemma KeywordsKeepContent(name: string)
    requires HasAlnum(name)
    ensures Flatten(GetKeywords(name)) == Lower(Alnums(name))
  {
    KeywordsAreRuns(name);
    RunsKeepContent(name);
  }

  predicate AllAlnum(w: string) { forall i :: 0 <= i < |w| ==> IsAlnum(w[i]) }

  predicate NoAlnum(g: string) { forall i :: 0 <= i < |g| ==> !IsAlnum(g[i]) }

  /** Characters that are not alphanumeric contribute no run. */
  lemma {:induction false} RunsSkip(g: string, v: string)
    requires NoAlnum(g)
    ensures Runs(g + v) == Runs(v)
  {
    if g != [] {
      assert (g + v)[0] == g[0] && (g + v)[1..] == g[1..] + v;
      RunsSkip(g[1..], v);
    } else {
      assert g + v == v;
    }
  }

  /** A word of alphanumerics ended by a gap is one run. */
  lemma {:induction false} RunsWord(w: string, g: string, v: string)
    requires w != [] && AllAlnum(w) && g != [] && NoAlnum(g)
    ensures Runs(w + (g + v)) == [Lower(w)] + Runs(v)
  {
    var s := w + (g + v);
    assert s[0] == w[0] && s[1..] == w[1..] + (g + v);
    if |w| == 1 {
      assert s[1..] == g + v && !IsAlnum(s[1]);
      RunsSkip(g, v);
      assert Lower(w) == [ToLower(w[0])];
    } else {
      RunsWord(w[1..], g, v);
      assert s[1] == w[1];
      assert Lower(w) == [ToLower(w[0])] + Lower(w[1..]);
    }
  }

  /** A word of alphanumerics on its own is one run. */
  lemma {:induction false} RunsLastWord(w: string)
    requires w != [] && AllAlnum(w)
    ensures Runs(w) == [Lower(w)]
  {
    if |w| == 1 {
      assert Lower(w) == [ToLower(w[0])];
    } else {
      RunsLastWord(w[1..]);
      assert Lower(w) == [ToLower(w[0])] + Lower(w[1..]);
    }
  }

  /** A text without upper-case letters is its own lower-case form. */
  lemma LowerFixed(w: string)
    requires NoUpper(w)
    ensures Lower(w) == w
  {
  }

  predicate NoUpper(w: string) { forall i :: 0 <= i < |w| ==> !IsUpper(w[i]) }

  /** A lower-case word ended by a gap is one run, unchanged. */
  lemma RunsPlainWord(w: string, g: string, v: string)
    requires w != [] && AllAlnum(w) && NoUpper(w) && g != [] && NoAlnum(g)
    ensures Runs(w + (g + v)) == [w] + Runs(v)
  {
    RunsWord(w, g, v);
    LowerFixed(w);
  }

  /** A lower-case word on its own is one run, unchanged. */
  lemma RunsPlainLast(w: string)
    requires w != [] && AllAlnum(w) && NoUpper(w)
    ensures Runs(w) == [w]
  {
    RunsLastWord(w);
    LowerFixed(w);
  }

  lemma ExampleWords()
    ensures AllAlnum("hello") && NoUpper("hello") && AllAlnum("123") && NoUpper("123")
    ensures AllAlnum("789") && NoUpper("789")
    ensures AllAlnum("tomorrow") && NoUpper("tomorrow")
    ensures AllAlnum("afternoon") && NoUpper("afternoon")
  {
  }

  lemma ExampleLowerGoodbye()
    ensures AllAlnum("GOODBYE") && Lower("GOODBYE") == "goodbye"
  {
    var w := "GOODBYE";
    var r := Lower(w);
    assert r[0] == 'g' && r[1] == 'o' && r[2] == 'o' && r[3] == 'd';
    assert r[4] == 'b' && r[5] == 'y' && r[6] == 'e';
  }

  lemma ExampleGaps()
    ensures NoAlnum("_") && NoAlnum("}") && NoAlnum("|") && NoAlnum(".")
    ensures NoAlnum("\n     ") && NoAlnum(",")
  {
  }

  lemma ExampleRunsEnd(t5: string)
    requires t5 == "tomorrow" + ("," + "afternoon")
    ensures Runs(t5) == ["tomorrow", "afternoon"]
  {
    ExampleWords();
    ExampleGaps();
    RunsPlainLast("afternoon");
    RunsPlainWord("tomorrow", ",", "afternoon");
  }

  /** The runs of the tail of the example name of the test suite. */
  lemma ExampleRunsTail(t3: string)
    requires t3 == "123" + ("." + ("789" + ("\n     " + ("tomorrow" + ("," + "afternoon")))))
    ensures Runs(t3) == ["123", "789", "tomorrow", "afternoon"]
  {
    ExampleWords();
    ExampleGaps();
    var t5 := "tomorrow" + ("," + "afternoon");
    var t4 := "789" + ("\n     " + t5);
    ExampleRunsEnd(t5);
    RunsPlainWord("789", "\n     ", t5);
    RunsPlainWord("123", ".", t4);
  }

  /** The runs of the example name of the test suite. */
  lemma ExampleRuns(t1: string)
    requires t1 == "hello" + ("}" + ("GOODBYE" + ("|" + ("123" + ("." + ("789"
                   + ("\n     " + ("tomorrow" + ("," + "afternoon")))))))))
    ensures HasAlnum("_" + t1)
    ensures Runs("_" + t1) == ["hello", "goodbye", "123", "789", "tomorrow", "afternoon"]
  {
    var t3 := "123" + ("." + ("789" + ("\n     " + ("tomorrow" + ("," + "afternoon")))));
    var t2 := "GOODBYE" + ("|" + t3);
    assert Runs(t2) == ["goodbye", "123", "789", "tomorrow", "afternoon"] by {
      ExampleGaps();
      ExampleLowerGoodbye();
      ExampleRunsTail(t3);
      RunsWord("GOODBYE", "|", t3);
    }
    assert Runs(t1) == ["hello", "goodbye", "123", "789", "tomorrow", "afternoon"] by {
      ExampleWords();
      ExampleGaps();
      RunsPlainWord("hello", "}", t2);
    }
    assert Runs("_" + t1) == Runs(t1) by {
      ExampleGaps();
      RunsSkip("_", t1);
    }
    assert HasAlnum("_" + t1) by {
      assert ("_" + t1)[1] == 'h';
    }
  }

  /** The example of the test suite: the name
      `"_hello}GOODBYE|123.789\n     tomorrow,afternoon"`, written here in
      pieces. */
  lemma KeywordsExample()
    ensures GetKeywords("_" + ("hello" + ("}" + ("GOODBYE" + ("|" + ("123" + ("." + ("789"
                        + ("\n     " + ("tomorrow" + ("," + "afternoon")))))))))))
         == ["hello", "goodbye", "123", "789", "tomorrow", "afternoon"]
  {
    var t1 := "hello" + ("}" + ("GOODBYE" + ("|" + ("123" + ("." + ("789"
              + ("\n     " + ("tomorrow" + ("," + "afternoon")))))))));
    ExampleRuns(t1);
    KeywordsAreRuns("_" + t1);
  }
}

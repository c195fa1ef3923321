/** The TweakCN style sheet: a theme's CSS variables rendered as up to three
    rule blocks, the optional theme-wide `:root`, the light `:root` and the
    `.dark` one. */
module ThemeCss {
  import opened Optional
  import opened Text

  /** One `[key, value]` entry of a `cssVars` record, in entry order. */
  datatype CssVar = CssVar(key: string, value: string)

  /** A theme's `cssVars`: the theme-wide record is optional, the light and
      dark ones are always present. */
  datatype ThemeVars = ThemeVars(theme: Option<seq<CssVar>>, light: seq<CssVar>, dark: seq<CssVar>)

  /** One declaration line, indented by two spaces. */
  function VarLine(v: CssVar): string {
    "  --" + v.key + ": " + v.value + ";"
  }

  function VarLines(vars: seq<CssVar>): (r: seq<string>)
    ensures |r| == |vars|
    ensures forall i :: 0 <= i < |vars| ==> r[i] == VarLine(vars[i])
  {
    seq(|vars|, i requires 0 <= i < |vars| => VarLine(vars[i]))
  }

  /** `getCSSVariables`: the declarations joined by newlines. */
  function Declarations(vars: seq<CssVar>): string {
    Join(VarLines(vars), "\n")
  }

  /** A rule block: selector, the declarations, closing brace. */
  function Block(selector: string, vars: seq<CssVar>): string {
    selector + " {\n" + Declarations(vars) + "\n}"
  }

  /** The blocks of the style sheet, in output order. */
  function Blocks(t: ThemeVars): (r: seq<string>)
    ensures |r| == if t.theme.Some? then 3 else 2
    ensures r[|r| - 2] == Block(":root", t.light)
    ensures r[|r| - 1] == Block(".dark", t.dark)
    ensures t.theme.Some? ==> r[0] == Block(":root", t.theme.value)
  {
    (if t.theme.Some? then [Block(":root", t.theme.value)] else [])
      + [Block(":root", t.light), Block(".dark", t.dark)]
  }

  /** `generateThemeCSS`: the blocks separated by one blank line. Read as
      lines, the sheet is `ThemeLines`: each block's selector line, its
      declarations and `}`, one empty line between blocks. */
  function GenerateThemeCss(t: ThemeVars): (r: string)
    ensures r == Join(ThemeLines(t), "\n")
  {
    JoinThemeLines(t);
    Join(Blocks(t), "\n\n")
  }

  // The style sheet read line by line, the layout the serialiser promises.

  /** The lines between a block's braces: one per variable, or a single
      empty line when the record is empty. */
  function BodyLines(vars: seq<CssVar>): (r: seq<string>)
    ensures |r| >= 1
  {
    if |vars| == 0 then [""] else VarLines(vars)
  }

  function BlockLines(selector: string, vars: seq<CssVar>): (r: seq<string>)
    ensures |r| == |BodyLines(vars)| + 2
  {
    [selector + " {"] + BodyLines(vars) + ["}"]
  }

  /** Every line of the sheet: the blocks' lines with one empty line between
      consecutive blocks. */
  function ThemeLines(t: ThemeVars): seq<string> {
    (if t.theme.Some? then BlockLines(":root", t.theme.value) + [""] else [])
      + BlockLines(":root", t.light) + [""] + BlockLines(".dark", t.dark)
  }

  predicate NoNewline(s: string) {
    '\n' !in s
  }

  predicate VarsWithoutNewlines(vars: seq<CssVar>) {
    forall i :: 0 <= i < |vars| ==> NoNewline(vars[i].key) && NoNewline(vars[i].value)
  }

  predicate WithoutNewlines(t: ThemeVars) {
    && (t.theme.Some? ==> VarsWithoutNewlines(t.theme.value))
    && VarsWithoutNewlines(t.light)
    && VarsWithoutNewlines(t.dark)
  }

  lemma BodyLinesJoin(vars: seq<CssVar>)
    ensures Join(BodyLines(vars), "\n") == Declarations(vars)
  {
  }

  lemma BlockLinesJoin(selector: string, vars: seq<CssVar>)
    ensures Join(BlockLines(selector, vars), "\n") == Block(selector, vars)
  {
    var head := [selector + " {"];
    var body := BodyLines(vars);
    var d := Declarations(vars);
    assert Join(body + ["}"], "\n") == d + "\n" + "}" by {
      BodyLinesJoin(vars);
      JoinAppend(body, ["}"], "\n");
    }
    assert Join(head + (body + ["}"]), "\n") == (selector + " {") + "\n" + (d + "\n" + "}") by {
      JoinAppend(head, body + ["}"], "\n");
    }
    assert BlockLines(selector, vars) == head + (body + ["}"]);
    BlockText(selector, d);
  }

  lemma BlockText(selector: string, d: string)
    ensures (selector + " {") + "\n" + (d + "\n" + "}") == selector + " {\n" + d + "\n}"
  {
    assert " {\n" == " {" + "\n";
    assert "\n}" == "\n" + "}";
  }

  lemma JoinPair(a: string, b: string, sep: string)
    ensures Join([a, b], sep) == a + sep + b
  {
    assert [a, b][1..] == [b];
  }

  lemma JoinTriple(a: string, b: string, c: string, sep: string)
    ensures Join([a, b, c], sep) == a + sep + b + sep + c
  {
    assert [a, b, c][1..] == [b, c];
    JoinPair(b, c, sep);
    assert a + sep + (b + sep + c) == a + sep + b + sep + c;
  }

  /** Two line lists separated by one empty line join to their joins
      separated by a blank line. */
  lemma JoinAroundBlank(a: seq<string>, b: seq<string>)
    requires |a| >= 1 && |b| >= 1
    ensures Join(a + [""] + b, "\n") == Join(a, "\n") + "\n\n" + Join(b, "\n")
  {
    var rest := [""] + b;
    var ja, jb := Join(a, "\n"), Join(b, "\n");
    assert Join(rest, "\n") == "\n" + jb by {
      JoinAppend([""], b, "\n");
      assert Join([""], "\n") == "";
    }
    assert Join(a + [""] + b, "\n") == ja + "\n" + ("\n" + jb) by {
      assert a + [""] + b == a + rest;
      JoinAppend(a, rest, "\n");
    }
    TwoNewlines(ja, jb);
  }

  lemma TwoNewlines(x: string, y: string)
    ensures x + "\n" + ("\n" + y) == x + "\n\n" + y
  {
    assert "\n\n" == "\n" + "\n";
    assert x + "\n" + ("\n" + y) == (x + "\n" + "\n") + y;
  }

  /** Two blocks' lines separated by an empty line join to the blocks
      separated by a blank line. */
  lemma JoinTwoBlocks(a: seq<string>, b: seq<string>, ja: string, jb: string)
    requires |a| >= 1 && |b| >= 1
    requires Join(a, "\n") == ja && Join(b, "\n") == jb
    ensures Join(a + [""] + b, "\n") == Join([ja, jb], "\n\n")
  {
    JoinAroundBlank(a, b);
    JoinPair(ja, jb, "\n\n");
  }

  lemma JoinThreeBlocks(a: seq<string>, b: seq<string>, c: seq<string>, ja: string, jb: string, jc: string)
    requires |a| >= 1 && |b| >= 1 && |c| >= 1
    requires Join(a, "\n") == ja && Join(b, "\n") == jb && Join(c, "\n") == jc
    ensures Join(a + [""] + b + [""] + c, "\n") == Join([ja, jb, jc], "\n\n")
  {
    var front := a + [""] + b;
    assert Join(front, "\n") == ja + "\n\n" + jb by {
      JoinAroundBlank(a, b);
    }
    JoinAroundBlank(front, c);
    JoinTriple(ja, jb, jc, "\n\n");
  }

  lemma JoinThemeLines(t: ThemeVars)
    ensures Join(ThemeLines(t), "\n") == Join(Blocks(t), "\n\n")
  {
    var light := BlockLines(":root", t.light);
    var dark := BlockLines(".dark", t.dark);
    var bs := Blocks(t);
    BlockLinesJoin(":root", t.light);
    BlockLinesJoin(".dark", t.dark);
    if t.theme.Some? {
      var first := BlockLines(":root", t.theme.value);
      BlockLinesJoin(":root", t.theme.value);
      assert Join(first + [""] + light + [""] + dark, "\n") == Join(bs, "\n\n") by {
        assert bs == [bs[0], bs[1], bs[2]];
        JoinThreeBlocks(first, light, dark, bs[0], bs[1], bs[2]);
      }
      assert ThemeLines(t) == first + [""] + light + [""] + dark;
    } else {
      assert Join(light + [""] + dark, "\n") == Join(bs, "\n\n") by {
        assert bs == [bs[0], bs[1]];
        JoinTwoBlocks(light, dark, bs[0], bs[1]);
      }
      assert ThemeLines(t) == light + [""] + dark;
    }
  }

  lemma LinesWithoutNewlines(selector: string, vars: seq<CssVar>)
    requires NoNewline(selector) && VarsWithoutNewlines(vars)
    ensures forall i :: 0 <= i < |BlockLines(selector, vars)| ==> NoNewline(BlockLines(selector, vars)[i])
  {
    forall i | 0 <= i < |vars| ensures NoNewline(VarLine(vars[i])) {
      var v := vars[i];
      assert VarLine(v) == "  --" + v.key + ": " + v.value + ";";
    }
  }

  /** Read line by line, the generated sheet is exactly `ThemeLines`: every
      variable on a line of its own, in entry order, each block framed by
      its selector line and a closing brace, consecutive blocks separated by
      exactly one empty line. This needs keys and values without line breaks. */
  lemma {:induction false} GeneratedSheetLines(t: ThemeVars)
    requires WithoutNewlines(t)
    ensures Split(GenerateThemeCss(t), '\n') == ThemeLines(t)
  {
    JoinThemeLines(t);
    LinesWithoutNewlines(":root", t.light);
    LinesWithoutNewlines(".dark", t.dark);
    if t.theme.Some? {
      LinesWithoutNewlines(":root", t.theme.value);
    }
    var lines := ThemeLines(t);
    assert forall i :: 0 <= i < |lines| ==> '\n' !in lines[i];
    SplitJoin(lines, '\n');
  }

  /** The theme-wide block is emitted exactly when the theme record is present,
      and it comes first; light and dark always close the sheet. */
  lemma {:induction false} ThemeBlockOnlyWhenPresent(t: ThemeVars)
    ensures t.theme.Some? <==> |Blocks(t)| == 3
    ensures t.theme.None? ==> GenerateThemeCss(t) == Block(":root", t.light) + "\n\n" + Block(".dark", t.dark)
    ensures t.theme.Some? ==>
      (GenerateThemeCss(t)
         == Block(":root", t.theme.value) + "\n\n" + Block(":root", t.light) + "\n\n" + Block(".dark", t.dark))
  {
    var bs := Blocks(t);
    assert Join(bs, "\n\n") == bs[0] + "\n\n" + Join(bs[1..], "\n\n");
    if t.theme.Some? {
      assert bs[1..] == [bs[1], bs[2]];
      assert Join(bs[1..], "\n\n") == bs[1] + "\n\n" + Join(bs[2..], "\n\n");
    } else {
      assert Join(bs[1..], "\n\n") == bs[1];
    }
  }
}

/** String operations of JavaScript that the modelled code relies on.
    A string is a sequence of Unicode scalar values; `toLowerCase` and
    `toUpperCase` are modelled on the ASCII letters only. */
module Text {

  predicate IsAsciiUpper(c: char) { 'A' <= c <= 'Z' }

  predicate IsAsciiLower(c: char) { 'a' <= c <= 'z' }

  predicate IsDigit(c: char) { '0' <= c <= '9' }

  function LowerChar(c: char): (r: char)
    ensures IsAsciiUpper(c) ==> IsAsciiLower(r) && r as int == c as int + 32
    ensures !IsAsciiUpper(c) ==> r == c
  {
    if IsAsciiUpper(c) then (c as int + 32) as char else c
  }

  function UpperChar(c: char): (r: char)
    ensures IsAsciiLower(c) ==> IsAsciiUpper(r) && r as int == c as int - 32
    ensures !IsAsciiLower(c) ==> r == c
  {
    if IsAsciiLower(c) then (c as int - 32) as char else c
  }

  /** `s.toLowerCase()`. */
  function Lower(s: string): (r: string)
    ensures |r| == |s|
    ensures forall i :: 0 <= i < |s| ==> r[i] == LowerChar(s[i])
  {
    seq(|s|, i requires 0 <= i < |s| => LowerChar(s[i]))
  }

  /** `s.toUpperCase()`. */
  function Upper(s: string): (r: string)
    ensures |r| == |s|
    ensures forall i :: 0 <= i < |s| ==> r[i] == UpperChar(s[i])
  {
    seq(|s|, i requires 0 <= i < |s| => UpperChar(s[i]))
  }

  /** The characters matched by the regular-expression class `\s`
      (ECMAScript WhiteSpace and LineTerminator). */
  predicate IsJsSpace(c: char) {
    || c == '\t' || c == '\n' || c == '\U{000B}' || c == '\U{000C}' || c == '\r' || c == ' '
    || c == '\U{00A0}' || c == '\U{1680}' || '\U{2000}' <= c <= '\U{200A}'
    || c == '\U{2028}' || c == '\U{2029}' || c == '\U{202F}' || c == '\U{205F}'
    || c == '\U{3000}' || c == '\U{FEFF}'
  }

  /** The suffix of `s` left after dropping its leading characters that satisfy `p`. */
  function DropWhile(s: string, p: char -> bool): (r: string)
    ensures |r| <= |s| && r == s[|s| - |r|..]
    ensures forall i :: 0 <= i < |s| - |r| ==> p(s[i])
    ensures |r| > 0 ==> !p(r[0])
  {
    if |s| > 0 && p(s[0]) then
      var r := DropWhile(s[1..], p);
      assert s[1..][|s| - 1 - |r|..] == s[|s| - |r|..];
      assert forall i :: 1 <= i < |s| - |r| ==> s[i] == s[1..][i - 1];
      r
    else s
  }

  /** `s.replace(/[class]+/g, [rep])`: every maximal run of characters satisfying
      `p` becomes the single character `rep`. */
  function ReplaceRuns(s: string, p: char -> bool, rep: char): (r: string)
    ensures |r| <= |s|
    ensures forall i :: 0 <= i < |r| ==> r[i] == rep || (r[i] in s && !p(r[i]))
    decreases |s|
  {
    if |s| == 0 then ""
    else if p(s[0]) then [rep] + ReplaceRuns(DropWhile(s[1..], p), p, rep)
    else [s[0]] + ReplaceRuns(s[1..], p, rep)
  }

  /** `s.replace(/[^class]/g, "")`: the characters of `s` satisfying `p`, in order. */
  function Keep(s: string, p: char -> bool): (r: string)
    ensures |r| <= |s|
    ensures forall i :: 0 <= i < |r| ==> p(r[i]) && r[i] in s
    decreases |s|
  {
    if |s| == 0 then "" else (if p(s[0]) then [s[0]] else "") + Keep(s[1..], p)
  }

  lemma LowerSnoc(s: string, c: char)
    ensures Lower(s + [c]) == Lower(s) + [LowerChar(c)]
  {
    var l := Lower(s + [c]);
    assert forall i :: 0 <= i < |s| ==> (s + [c])[i] == s[i];
    assert l == Lower(s) + [LowerChar(c)];
  }

  /** Keeping from a string extended by one character. */
  lemma {:induction false} KeepSnoc(s: string, c: char, p: char -> bool)
    ensures Keep(s + [c], p) == Keep(s, p) + (if p(c) then [c] else "")
    decreases |s|
  {
    if |s| == 0 {
      assert s + [c] == [c];
      assert Keep([c], p) == (if p(c) then [c] else "") + Keep([], p);
    } else {
      var head := if p(s[0]) then [s[0]] else "";
      assert (s + [c])[0] == s[0];
      assert (s + [c])[1..] == s[1..] + [c];
      KeepSnoc(s[1..], c, p);
      assert Keep(s + [c], p) == head + Keep(s[1..] + [c], p);
      assert Keep(s, p) == head + Keep(s[1..], p);
    }
  }

  /** Keeping from a concatenation keeps from each part. */
  lemma {:induction false} KeepAppend(a: string, b: string, p: char -> bool)
    ensures Keep(a + b, p) == Keep(a, p) + Keep(b, p)
    decreases |a|
  {
    if |a| > 0 {
      assert (a + b)[0] == a[0];
      assert (a + b)[1..] == a[1..] + b;
      KeepAppend(a[1..], b, p);
    } else {
      assert a + b == b;
    }
  }

  /** Keeping from a string with one more character in front. */
  lemma KeepCons(c: char, s: string, p: char -> bool)
    ensures Keep([c] + s, p) == (if p(c) then [c] else "") + Keep(s, p)
  {
    assert ([c] + s)[0] == c;
    assert ([c] + s)[1..] == s;
  }

  /** Lower-casing a string with one more character in front. */
  lemma LowerCons(s: string)
    requires |s| > 0
    ensures Lower(s) == [LowerChar(s[0])] + Lower(s[1..])
  {
    assert Lower(s)[1..] == Lower(s[1..]);
  }

  /** Keeping nothing from a string none of whose characters qualify. */
  lemma {:induction false} KeepNoneIsEmpty(s: string, p: char -> bool)
    requires forall i :: 0 <= i < |s| ==> !p(s[i])
    ensures Keep(s, p) == ""
    decreases |s|
  {
    if |s| > 0 {
      KeepNoneIsEmpty(s[1..], p);
    }
  }

  /** Dropping a whitespace prefix that is followed by a non-whitespace
      character (or nothing) leaves exactly the rest. */
  lemma {:induction false} DropSpacesBefore(ws: string, rest: string)
    requires forall i :: 0 <= i < |ws| ==> IsJsSpace(ws[i])
    requires |rest| > 0 ==> !IsJsSpace(rest[0])
    ensures DropWhile(ws + rest, IsJsSpace) == rest
    decreases |ws|
  {
    if |ws| > 0 {
      assert (ws + rest)[0] == ws[0];
      assert (ws + rest)[1..] == ws[1..] + rest;
      DropSpacesBefore(ws[1..], rest);
    } else {
      assert ws + rest == rest;
    }
  }

  /** Lower-casing neither creates nor removes whitespace. */
  lemma LowerKeepsSpace(c: char)
    ensures IsJsSpace(LowerChar(c)) == IsJsSpace(c)
  {
    if IsAsciiUpper(c) {
      assert IsAsciiLower(LowerChar(c));
    }
  }

  /** Lower-casing commutes with dropping leading whitespace. */
  lemma {:induction false} LowerDropWhileSpace(s: string)
    ensures DropWhile(Lower(s), IsJsSpace) == Lower(DropWhile(s, IsJsSpace))
    decreases |s|
  {
    var l := Lower(s);
    if |s| > 0 {
      LowerKeepsSpace(s[0]);
      assert l[0] == LowerChar(s[0]);
      if IsJsSpace(s[0]) {
        assert l[1..] == Lower(s[1..]);
        LowerDropWhileSpace(s[1..]);
        assert DropWhile(l, IsJsSpace) == DropWhile(l[1..], IsJsSpace);
        assert DropWhile(s, IsJsSpace) == DropWhile(s[1..], IsJsSpace);
      } else {
        assert DropWhile(l, IsJsSpace) == l;
        assert DropWhile(s, IsJsSpace) == s;
      }
    } else {
      assert l == [];
    }
  }

  lemma {:induction false} KeepAllIsIdentity(s: string, p: char -> bool)
    requires forall i :: 0 <= i < |s| ==> p(s[i])
    ensures Keep(s, p) == s
    decreases |s|
  {
    if |s| > 0 {
      KeepAllIsIdentity(s[1..], p);
    }
  }

  lemma {:induction false} ReplaceRunsWithoutRunsIsIdentity(s: string, p: char -> bool, rep: char)
    requires forall i :: 0 <= i < |s| ==> !p(s[i])
    ensures ReplaceRuns(s, p, rep) == s
    decreases |s|
  {
    if |s| > 0 {
      ReplaceRunsWithoutRunsIsIdentity(s[1..], p, rep);
    }
  }

  /** `t.includes(q)`: `q` is a prefix of some suffix of `t`. */
  predicate IsSubstring(q: string, t: string)
    decreases |t|
  {
    q <= t || (|t| > 0 && IsSubstring(q, t[1..]))
  }

  /** `xs.join(sep)`. */
  function Join(xs: seq<string>, sep: string): (r: string)
    decreases |xs|
  {
    if |xs| == 0 then ""
    else if |xs| == 1 then xs[0]
    else xs[0] + sep + Join(xs[1..], sep)
  }

  /** `s.split(d)` for a one-character separator: never empty, and empty
      pieces are kept (`"a  b"` gives `["a", "", "b"]`). */
  function Split(s: string, d: char): (r: seq<string>)
    ensures |r| >= 1
    ensures forall i :: 0 <= i < |r| ==> d !in r[i]
    decreases |s|
  {
    if |s| == 0 then [""]
    else if s[0] == d then [""] + Split(s[1..], d)
    else
      var rest := Split(s[1..], d);
      [[s[0]] + rest[0]] + rest[1..]
  }

  /** Joining the pieces of a split with the separator gives back the string. */
  lemma {:induction false} JoinSplit(s: string, d: char)
    ensures Join(Split(s, d), [d]) == s
    decreases |s|
  {
    if |s| > 0 {
      var rest := Split(s[1..], d);
      JoinSplit(s[1..], d);
      if s[0] == d {
        assert Split(s, d) == [""] + rest;
      } else {
        var r := Split(s, d);
        assert r == [[s[0]] + rest[0]] + rest[1..];
        if |rest| == 1 {
          assert Join(r, [d]) == [s[0]] + rest[0];
        } else {
          assert r[1..] == rest[1..];
          assert Join(rest, [d]) == rest[0] + [d] + Join(rest[1..], [d]);
        }
      }
    }
  }

  lemma {:induction false} SplitPrefix(x: string, ys: string, d: char)
    requires d !in x
    ensures Split(x + ys, d) == [x + Split(ys, d)[0]] + Split(ys, d)[1..]
    decreases |x|
  {
    if |x| > 0 {
      assert (x + ys)[0] == x[0];
      assert (x + ys)[1..] == x[1..] + ys;
      SplitPrefix(x[1..], ys, d);
      assert [x[0]] + (x[1..] + Split(ys, d)[0]) == x + Split(ys, d)[0];
    } else {
      var r := Split(ys, d);
      assert x + ys == ys;
      assert x + r[0] == r[0];
      assert [r[0]] + r[1..] == r;
    }
  }

  /** Splitting a join of separator-free pieces gives back the pieces. */
  lemma {:induction false} SplitJoin(xs: seq<string>, d: char)
    requires |xs| >= 1
    requires forall i :: 0 <= i < |xs| ==> d !in xs[i]
    ensures Split(Join(xs, [d]), d) == xs
    decreases |xs|
  {
    if |xs| == 1 {
      SplitPrefix(xs[0], "", d);
      assert xs[0] + "" == xs[0];
    } else {
      var tail := Join(xs[1..], [d]);
      SplitJoin(xs[1..], d);
      assert Join(xs, [d]) == xs[0] + ([d] + tail);
      SplitPrefix(xs[0], [d] + tail, d);
      assert ([d] + tail)[1..] == tail;
      assert Split([d] + tail, d) == [""] + xs[1..];
      assert xs[0] + "" == xs[0];
      assert [xs[0]] + xs[1..] == xs;
    }
  }

  /** Joining two non-empty lists of pieces joins their joins with the separator. */
  lemma {:induction false} JoinAppend(a: seq<string>, b: seq<string>, sep: string)
    requires |a| >= 1 && |b| >= 1
    ensures Join(a + b, sep) == Join(a, sep) + sep + Join(b, sep)
    decreases |a|
  {
    if |a| == 1 {
      assert (a + b)[1..] == b;
    } else {
      JoinAppend(a[1..], b, sep);
      assert (a + b)[1..] == a[1..] + b;
    }
  }
}

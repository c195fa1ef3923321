/** Model picker filtering: a fuzzy matcher that maps free-form author names
    onto a fixed table of known providers, the provider labels and logos
    derived from it, and the pure state updates behind the picker's sidebar,
    group filter and favourites. */
module ModelFiltering {
  import opened Optional
  import opened Text
  import opened Seqs

  predicate IsNotSeparator(c: char) {
    c != '-' && c != '_' && c != '.'
  }

  /** Lower-case and delete every '-', '_' and '.'. */
  function Squash(s: string): (r: string)
    ensures forall i :: 0 <= i < |r| ==> IsNotSeparator(r[i]) && !IsAsciiUpper(r[i])
    decreases |s|
  {
    if |s| == 0 then []
    else
      var c := s[|s| - 1];
      Squash(s[..|s| - 1]) + (if IsNotSeparator(c) then [LowerChar(c)] else [])
  }

  /** The normalisation is the code's two steps: lower-case the whole
      string, then delete the separators. */
  lemma {:induction false} SquashIsLowerWithoutSeparators(s: string)
    ensures Squash(s) == Keep(Lower(s), IsNotSeparator)
    decreases |s|
  {
    if |s| > 0 {
      var init := s[..|s| - 1];
      var c := s[|s| - 1];
      SquashIsLowerWithoutSeparators(init);
      assert s == init + [c];
      LowerSnoc(init, c);
      KeepSnoc(Lower(init), LowerChar(c), IsNotSeparator);
      assert IsNotSeparator(LowerChar(c)) == IsNotSeparator(c);
    }
  }

  /** The matcher's greedy scan from query index `qIdx` and target index
      `tIdx`, `last` being the target index of the previous match (-1 for
      none). It takes each query character at its first occurrence and fails
      as soon as a match lies more than two positions after the previous one. */
  function Scan(q: string, t: string, qIdx: nat, tIdx: nat, last: int): bool
    requires qIdx <= |q| && tIdx <= |t|
    decreases |t| - tIdx
  {
    if tIdx < |t| && qIdx < |q| then
      if q[qIdx] == t[tIdx] then
        if last != -1 && tIdx - last > 2 then false
        else Scan(q, t, qIdx + 1, tIdx + 1, tIdx)
      else Scan(q, t, qIdx, tIdx + 1, last)
    else qIdx == |q|
  }

  /** Whether `query` fuzzily matches `target`: always when the squashed
      query occurs in the squashed target, and otherwise only for a query of
      at least three characters. */
  function FuzzyMatch(query: string, target: string): (r: bool)
    ensures IsSubstring(Squash(query), Squash(target)) ==> r
    ensures r && !IsSubstring(Squash(query), Squash(target)) ==> |Squash(query)| >= 3
  {
    var q := Squash(query);
    var t := Squash(target);
    if q == t then assert q <= t; true
    else if IsSubstring(q, t) then true
    else if |q| < 3 then false
    else Scan(q, t, 0, 0, -1)
  }

  /** The matcher as the code runs it, with the greedy scan as a loop. */
  method FuzzyMatchLoop(query: string, target: string) returns (b: bool)
    ensures b == FuzzyMatch(query, target)
  {
    var q := Squash(query);
    var t := Squash(target);
    if q == t {
      return true;
    }
    if IsSubstring(q, t) {
      return true;
    }
    if |q| < 3 {
      return false;
    }
    b := ScanLoop(q, t);
  }

  /** The greedy scan as a loop over the target. */
  method ScanLoop(q: string, t: string) returns (b: bool)
    ensures b == Scan(q, t, 0, 0, -1)
  {
    var qIdx := 0;
    var lastMatchIdx := -1;
    var tIdx := 0;
    while tIdx < |t| && qIdx < |q|
      invariant 0 <= tIdx <= |t| && 0 <= qIdx <= |q|
      invariant Scan(q, t, qIdx, tIdx, lastMatchIdx) == Scan(q, t, 0, 0, -1)
      decreases |t| - tIdx
    {
      if q[qIdx] == t[tIdx] {
        if lastMatchIdx != -1 && tIdx - lastMatchIdx > 2 {
          return false;
        }
        qIdx := qIdx + 1;
        lastMatchIdx := tIdx;
      }
      tIdx := tIdx + 1;
    }
    return qIdx == |q|;
  }

  /** `pos` places the characters of `q` in `t` in order, each match at most
      two positions after the previous one. */
  ghost predicate CloseEmbedding(q: string, t: string, pos: seq<int>) {
    && |pos| == |q|
    && (forall k :: 0 <= k < |pos| ==> 0 <= pos[k] < |t| && t[pos[k]] == q[k])
    && (forall k :: 0 < k < |pos| ==> pos[k - 1] < pos[k] <= pos[k - 1] + 2)
  }

  lemma {:induction false} ScanFindsCloseEmbedding(q: string, t: string, qIdx: nat, tIdx: nat, last: int, pos: seq<int>)
    returns (full: seq<int>)
    requires qIdx <= |q| && tIdx <= |t| && |pos| == qIdx
    requires forall k :: 0 <= k < qIdx ==> 0 <= pos[k] < tIdx && t[pos[k]] == q[k]
    requires forall k :: 0 < k < qIdx ==> pos[k - 1] < pos[k] <= pos[k - 1] + 2
    requires qIdx == 0 ==> last == -1
    requires qIdx > 0 ==> last == pos[qIdx - 1]
    requires Scan(q, t, qIdx, tIdx, last)
    ensures CloseEmbedding(q, t, full)
    decreases |t| - tIdx
  {
    if tIdx < |t| && qIdx < |q| {
      if q[qIdx] == t[tIdx] {
        full := ScanFindsCloseEmbedding(q, t, qIdx + 1, tIdx + 1, tIdx, pos + [tIdx]);
      } else {
        full := ScanFindsCloseEmbedding(q, t, qIdx, tIdx + 1, last, pos);
      }
    } else {
      full := pos;
    }
  }

  /** A fuzzy match means the squashed query equals or occurs in the squashed
      target, or it has at least three characters and occurs in the target as
      a subsequence whose consecutive matches are at most two positions apart.
      Conversely, a squashed query occurring in the squashed target matches. */
  lemma FuzzyMatchSound(query: string, target: string)
    ensures var q := Squash(query);
      var t := Squash(target);
      && (FuzzyMatch(query, target) ==>
            IsSubstring(q, t) || (|q| >= 3 && exists pos :: CloseEmbedding(q, t, pos)))
      && (IsSubstring(q, t) ==> FuzzyMatch(query, target))
  {
    var q := Squash(query);
    var t := Squash(target);
    if q == t {
      assert q <= t;
    } else if FuzzyMatch(query, target) && !IsSubstring(q, t) {
      var pos := ScanFindsCloseEmbedding(q, t, 0, 0, -1, []);
    }
  }

  /** A short query matches only by occurring in the target. */
  lemma ShortQueryNeedsSubstring(query: string, target: string)
    requires |Squash(query)| < 3
    ensures FuzzyMatch(query, target) <==> IsSubstring(Squash(query), Squash(target))
  {
    var q := Squash(query);
    var t := Squash(target);
    if q == t {
      assert q <= t;
    }
  }

  /** The greedy scan misses close embeddings that do not start at the
      first occurrence. Any three-letter query and seven-letter target shaped
      like "abc" and "axxabxc" show it: the query lies in the target at
      positions 3, 4, 6, yet the scan takes the first letter at 0 and then
      finds the second one four positions later. */
  lemma GreedyScanIsIncomplete(q: string, t: string)
    requires FarSecondLetter(q, t)
    ensures CloseEmbedding(q, t, [3, 4, 6])
    ensures !FuzzyMatch(q, t)
  {
    SquashKeepsPlainLowercase(q);
    SquashKeepsPlainLowercase(t);
    FarSecondLetterNotSubstring(q, t);
    FarSecondLetterStopsScan(q, t);
    assert Squash(q) != Squash(t);
    var pos := [3, 4, 6];
    assert forall k :: 0 <= k < 3 ==> t[pos[k]] == q[k];
  }

  /** The shape of "abc" and "axxabxc": lower-case letters, the query's first
      letter at 0 and 3, its second only at 4, its third at 6 and not at 5. */
  predicate FarSecondLetter(q: string, t: string) {
    && |q| == 3 && |t| == 7
    && (forall i :: 0 <= i < |q| ==> IsAsciiLower(q[i]))
    && (forall i :: 0 <= i < |t| ==> IsAsciiLower(t[i]))
    && t[0] == q[0] && t[3] == q[0] && t[4] == q[1] && t[6] == q[2]
    && t[1] != q[1] && t[2] != q[1] && t[3] != q[1] && t[5] != q[1] && t[5] != q[2]
  }

  lemma FarSecondLetterNotSubstring(q: string, t: string)
    requires FarSecondLetter(q, t)
    ensures !IsSubstring(q, t)
  {
    forall i: nat ensures !OccursAt(q, t, i) {
      if i + 3 <= |t| {
        assert t[i..i + 3][1] != q[1] || t[i..i + 3][2] != q[2];
      }
    }
    NoOffsetNoSubstring(q, t);
  }

  lemma FarSecondLetterStopsScan(q: string, t: string)
    requires FarSecondLetter(q, t)
    ensures !Scan(q, t, 0, 0, -1)
  {
    assert !Scan(q, t, 1, 4, 0);
    assert !Scan(q, t, 1, 3, 0);
    assert !Scan(q, t, 1, 2, 0);
    assert !Scan(q, t, 1, 1, 0);
  }

  /** The example the shape is named after. */
  lemma GreedyScanMissesAbc()
    ensures CloseEmbedding("abc", "axxabxc", [3, 4, 6])
    ensures !FuzzyMatch("abc", "axxabxc")
  {
    GreedyScanIsIncomplete("abc", "axxabxc");
  }

  predicate OccursAt(q: string, t: string, i: nat) {
    i + |q| <= |t| && t[i..i + |q|] == q
  }

  /** `q` occurs in `t` only if it starts at some offset of `t`. */
  lemma {:induction false} NoOffsetNoSubstring(q: string, t: string)
    requires forall i: nat :: !OccursAt(q, t, i)
    ensures !IsSubstring(q, t)
    decreases |t|
  {
    if |t| > 0 {
      forall i: nat ensures !OccursAt(q, t[1..], i) {
        if i + |q| <= |t[1..]| {
          assert t[1..][i..i + |q|] == t[i + 1..i + 1 + |q|];
          assert !OccursAt(q, t, i + 1);
        }
      }
      NoOffsetNoSubstring(q, t[1..]);
    }
    assert !OccursAt(q, t, 0);
  }

  lemma {:induction false} SquashKeepsPlainLowercase(s: string)
    requires forall i :: 0 <= i < |s| ==> IsAsciiLower(s[i])
    ensures Squash(s) == s
    decreases |s|
  {
    if |s| > 0 {
      SquashKeepsPlainLowercase(s[..|s| - 1]);
      assert s[..|s| - 1] + [s[|s| - 1]] == s;
    }
  }


  /** One row of the provider table: author key, logo slug and display name. */
  datatype ProviderDomain = ProviderDomain(key: string, logo: string, displayName: string)

  /** The provider table in key order. */
  const ProviderDomains: seq<ProviderDomain> := [
    ProviderDomain("anthropic", "anthropic", "Anthropic"),
    ProviderDomain("openai", "openai", "OpenAI"),
    ProviderDomain("google", "google", "Google"),
    ProviderDomain("x-ai", "xai", "xAI"),
    ProviderDomain("minimax", "minimax", "MiniMax"),
    ProviderDomain("deepseek", "deepseek", "DeepSeek"),
    ProviderDomain("moonshotai", "moonshotai-cn", "Moonshot AI"),
    ProviderDomain("z-ai", "zhipuai", "Z-AI"),
    ProviderDomain("black-forest-labs", "openrouter", "Black Forest Labs")
  ]

  predicate IsSpaceOrDot(c: char) {
    IsJsSpace(c) || c == '.'
  }

  /** The author lower-cased with every run of whitespace and dots turned into one hyphen. */
  function AuthorSlug(author: string): string {
    ReplaceRuns(Lower(author), IsSpaceOrDot, '-')
  }

  predicate KeyMatches(slug: string, key: string) {
    slug == key || FuzzyMatch(slug, key) || FuzzyMatch(key, slug)
  }

  /** The display name of the first row of `table`, from row `i` on, whose
      key matches `slug`. */
  function LabelFrom(slug: string, table: seq<ProviderDomain>, i: nat): (r: Option<string>)
    requires i <= |table|
    ensures r.Some? ==> exists j :: i <= j < |table| && r.value == table[j].displayName
    decreases |table| - i
  {
    if i == |table| then None
    else if KeyMatches(slug, table[i].key) then Some(table[i].displayName)
    else LabelFrom(slug, table, i + 1)
  }

  /** The display name of the first provider whose key matches the author
      slug, or null when none does. */
  function GetProviderLabel(author: string): (r: Option<string>)
    ensures r.Some? ==> exists j :: 0 <= j < |ProviderDomains| && r.value == ProviderDomains[j].displayName
  {
    LabelFrom(AuthorSlug(author), ProviderDomains, 0)
  }

  /** Row `j` is the first row from `i` on whose key matches `slug`. */
  predicate FirstMatchFrom(slug: string, table: seq<ProviderDomain>, i: nat, j: nat)
    requires i <= j < |table|
  {
    KeyMatches(slug, table[j].key)
    && forall k :: i <= k < j ==> !KeyMatches(slug, table[k].key)
  }

  lemma {:induction false} LabelFromFirstMatch(slug: string, table: seq<ProviderDomain>, i: nat)
    requires i <= |table|
    ensures LabelFrom(slug, table, i).Some? <==> exists j :: i <= j < |table| && KeyMatches(slug, table[j].key)
    ensures LabelFrom(slug, table, i).Some? ==> exists j :: (i <= j < |table| && FirstMatchFrom(slug, table, i, j)
      && LabelFrom(slug, table, i).value == table[j].displayName)
    decreases |table| - i
  {
    if i < |table| {
      if KeyMatches(slug, table[i].key) {
        assert FirstMatchFrom(slug, table, i, i);
      } else {
        LabelFromFirstMatch(slug, table, i + 1);
        assert LabelFrom(slug, table, i) == LabelFrom(slug, table, i + 1);
        if j :| i <= j < |table| && KeyMatches(slug, table[j].key) {
          assert i + 1 <= j;
        }
        if LabelFrom(slug, table, i + 1).Some? {
          var j :| i + 1 <= j < |table| && FirstMatchFrom(slug, table, i + 1, j)
            && LabelFrom(slug, table, i + 1).value == table[j].displayName;
          assert FirstMatchFrom(slug, table, i, j);
        }
      }
    }
  }

  /** The label is present exactly when some key matches, and then it is the
      display name of the first matching key in table order. */
  lemma GetProviderLabelFirstMatch(author: string)
    ensures GetProviderLabel(author).Some? <==>
      exists j :: 0 <= j < |ProviderDomains| && KeyMatches(AuthorSlug(author), ProviderDomains[j].key)
    ensures GetProviderLabel(author).Some? ==> exists j :: (0 <= j < |ProviderDomains|
      && FirstMatchFrom(AuthorSlug(author), ProviderDomains, 0, j)
      && GetProviderLabel(author).value == ProviderDomains[j].displayName)
  {
    LabelFromFirstMatch(AuthorSlug(author), ProviderDomains, 0);
  }

  /** An empty author slug occurs in every key, so it takes the first provider. */
  lemma EmptyAuthorLabelledAnthropic()
    ensures GetProviderLabel("") == Some("Anthropic")
  {
    assert AuthorSlug("") == "";
    assert Squash("") == "";
    assert IsSubstring("", Squash("anthropic"));
    assert KeyMatches("", ProviderDomains[0].key);
  }

  /** The sidebar caption of a label: the two pseudo-labels are capitalised. */
  function GetProviderDisplayName(displayLabel: string): (r: string)
    ensures r == displayLabel <==> displayLabel != "all" && displayLabel != "favorites"
    ensures displayLabel == "all" ==> r == "All"
    ensures displayLabel == "favorites" ==> r == "Favorites"
  {
    if displayLabel == "all" then "All"
    else if displayLabel == "favorites" then "Favorites"
    else displayLabel
  }

  function LogoFrom(displayLabel: string, i: nat): (r: string)
    requires i <= |ProviderDomains|
    ensures (forall j :: i <= j < |ProviderDomains| ==> ProviderDomains[j].displayName != displayLabel) ==> r == displayLabel
    ensures forall j :: (i <= j < |ProviderDomains| && ProviderDomains[j].displayName == displayLabel
      && (forall k :: i <= k < j ==> ProviderDomains[k].displayName != displayLabel)) ==> r == ProviderDomains[j].logo
    decreases |ProviderDomains| - i
  {
    if i == |ProviderDomains| then displayLabel
    else if ProviderDomains[i].displayName == displayLabel then ProviderDomains[i].logo
    else LogoFrom(displayLabel, i + 1)
  }

  /** The logo slug of a label: the pseudo-labels are their own slug, a table
      display name gives its logo, anything else is returned unchanged. */
  function GetProviderLogoSlug(displayLabel: string): (r: string)
    ensures displayLabel == "all" || displayLabel == "favorites" ==> r == displayLabel
    ensures forall j :: 0 <= j < |ProviderDomains| && ProviderDomains[j].displayName == displayLabel ==>
      r == ProviderDomains[j].logo
    ensures (forall j :: 0 <= j < |ProviderDomains| ==> ProviderDomains[j].displayName != displayLabel) ==>
      r == displayLabel
  {
    DisplayNamesDistinct();
    if displayLabel == "all" || displayLabel == "favorites" then displayLabel
    else LogoFrom(displayLabel, 0)
  }

  lemma DisplayNamesDistinct()
    ensures forall j, k :: 0 <= j < k < |ProviderDomains| ==> ProviderDomains[j].displayName != ProviderDomains[k].displayName
    ensures forall j :: 0 <= j < |ProviderDomains| ==>
      ProviderDomains[j].displayName != "all" && ProviderDomains[j].displayName != "favorites"
      && ProviderDomains[j].displayName != ""
  {
  }

  /** Every provider label is shown as itself and its logo is the table's logo
      for that provider; the pseudo-labels are shown capitalised and keep their
      slug. */
  lemma LabelsDisplayAndLogo(author: string)
    ensures GetProviderLabel(author).Some? ==>
      var l := GetProviderLabel(author).value;
      && GetProviderDisplayName(l) == l
      && exists j :: 0 <= j < |ProviderDomains| && l == ProviderDomains[j].displayName
                  && GetProviderLogoSlug(l) == ProviderDomains[j].logo
    ensures GetProviderDisplayName("all") == "All" && GetProviderDisplayName("favorites") == "Favorites"
    ensures GetProviderLogoSlug("all") == "all" && GetProviderLogoSlug("favorites") == "favorites"
  {
    DisplayNamesDistinct();
    if GetProviderLabel(author).Some? {
      var l := GetProviderLabel(author).value;
      var j :| 0 <= j < |ProviderDomains| && l == ProviderDomains[j].displayName;
      assert GetProviderLogoSlug(l) == ProviderDomains[j].logo;
    }
  }

  /** The fields of a model the picker reads. */
  datatype OpenRouterModel = OpenRouterModel(slug: string, author: string)

  /** A group of models under one author name. */
  datatype ModelGroup = ModelGroup(author: string, models: seq<OpenRouterModel>)

  /** The label cache: the provider label of every group's author. */
  function LabelCache(groups: seq<ModelGroup>): (cache: map<string, Option<string>>)
    ensures forall g :: g in groups ==> g.author in cache && cache[g.author] == GetProviderLabel(g.author)
    ensures forall a :: a in cache ==> exists g :: g in groups && g.author == a
  {
    map a | a in (set g | g in groups :: g.author) :: GetProviderLabel(a)
  }

  /** `cache.get(author)` where only a label counts: a missing entry reads as
      `undefined`, which is falsy like `null`. */
  function CachedLabel(cache: map<string, Option<string>>, author: string): (l: Option<string>)
    ensures l.Some? <==> author in cache && cache[author].Some?
    ensures l.Some? ==> l == cache[author]
  {
    if author in cache then cache[author] else None
  }

  /** The truthy cached labels of the groups' authors, in group order. */
  function CachedLabels(groups: seq<ModelGroup>, cache: map<string, Option<string>>): (r: seq<string>)
    ensures "" !in r
    decreases |groups|
  {
    if |groups| == 0 then []
    else
      var init := groups[..|groups| - 1];
      var last := groups[|groups| - 1];
      var l := CachedLabel(cache, last.author);
      CachedLabels(init, cache) + (if l.Some? && l.value != "" then [l.value] else [])
  }

  /** The cached labels hold exactly the truthy labels some group's author has. */
  lemma {:induction false} CachedLabelsMembers(groups: seq<ModelGroup>, cache: map<string, Option<string>>)
    ensures forall x :: x in CachedLabels(groups, cache) <==>
      x != "" && exists g :: g in groups && CachedLabel(cache, g.author) == Some(x)
    decreases |groups|
  {
    if |groups| > 0 {
      var init := groups[..|groups| - 1];
      var last := groups[|groups| - 1];
      assert forall g :: g in groups <==> g in init || g == last;
      CachedLabelsMembers(init, cache);
    }
  }

  /** The sidebar entries: "favorites" and "all" first, then every truthy
      cached label of the groups not seen before, in group order. */
  method Authors(groups: seq<ModelGroup>, cache: map<string, Option<string>>) returns (known: seq<string>)
    ensures known == Dedup(["favorites", "all"] + CachedLabels(groups, cache))
  {
    known := ["favorites", "all"];
    var seen: set<string> := {"favorites", "all"};
    ghost var labels: seq<string> := [];
    assert ["favorites", "all"] + labels == known;
    DedupOfDistinct(known);
    var i := 0;
    while i < |groups|
      invariant 0 <= i <= |groups|
      invariant labels == CachedLabels(groups[..i], cache)
      invariant known == Dedup(["favorites", "all"] + labels)
      invariant forall x :: x in seen <==> x in known
    {
      var found := CachedLabel(cache, groups[i].author);
      AuthorsStep(groups, cache, i, labels, known);
      labels := labels + (if found.Some? && found.value != "" then [found.value] else []);
      if found.Some? && found.value != "" && found.value !in seen {
        known := known + [found.value];
        seen := seen + {found.value};
      }
      i := i + 1;
    }
    assert groups[..i] == groups;
  }

  /** One more group: its truthy cached label, if any, joins the labels, and
      the sidebar grows by it exactly when it is new. */
  lemma AuthorsStep(groups: seq<ModelGroup>, cache: map<string, Option<string>>, i: nat,
                    labels: seq<string>, known: seq<string>)
    requires i < |groups|
    requires labels == CachedLabels(groups[..i], cache)
    requires known == Dedup(["favorites", "all"] + labels)
    ensures var l := CachedLabel(cache, groups[i].author);
      var next := labels + (if l.Some? && l.value != "" then [l.value] else []);
      && next == CachedLabels(groups[..i + 1], cache)
      && Dedup(["favorites", "all"] + next)
           == if l.Some? && l.value != "" && l.value !in known then known + [l.value] else known
  {
    var l := CachedLabel(cache, groups[i].author);
    CachedLabelsStep(groups, cache, i);
    if l.Some? && l.value != "" {
      DedupStep(["favorites", "all"], labels, known, l.value);
    } else {
      assert labels + [] == labels;
    }
  }

  /** One more label: the sidebar grows by it exactly when it is new. */
  lemma DedupStep(pre: seq<string>, labels: seq<string>, known: seq<string>, x: string)
    requires known == Dedup(pre + labels)
    ensures Dedup(pre + (labels + [x])) == if x in known then known else known + [x]
  {
    assert pre + (labels + [x]) == (pre + labels) + [x];
    DedupSnoc(pre + labels, x);
  }

  /** One more group adds its truthy cached label, if any, at the end. */
  lemma CachedLabelsStep(groups: seq<ModelGroup>, cache: map<string, Option<string>>, i: nat)
    requires i < |groups|
    ensures var l := CachedLabel(cache, groups[i].author);
      CachedLabels(groups[..i + 1], cache)
        == CachedLabels(groups[..i], cache) + (if l.Some? && l.value != "" then [l.value] else [])
  {
    assert groups[..i + 1][..i] == groups[..i];
  }

  lemma LabelIsNotPseudo(author: string)
    ensures GetProviderLabel(author).Some? ==>
      var l := GetProviderLabel(author).value;
      l != "all" && l != "favorites" && l != ""
  {
    DisplayNamesDistinct();
  }

  /** `x` is the provider label of some group's author. */
  predicate IsGroupLabel(groups: seq<ModelGroup>, x: string) {
    exists g :: g in groups && GetProviderLabel(g.author) == Some(x)
  }

  /** With the cache built from the same groups, the truthy cached labels
      are exactly the provider labels of the groups' authors. */
  lemma CachedLabelsAreProviderLabels(groups: seq<ModelGroup>)
    ensures forall x :: x in CachedLabels(groups, LabelCache(groups)) <==> IsGroupLabel(groups, x)
    ensures "favorites" !in CachedLabels(groups, LabelCache(groups))
    ensures "all" !in CachedLabels(groups, LabelCache(groups))
  {
    CachedLabelsMembers(groups, LabelCache(groups));
    forall x, g | g in groups && GetProviderLabel(g.author) == Some(x)
      ensures x != "" && x != "favorites" && x != "all"
    {
      LabelIsNotPseudo(g.author);
    }
  }

  /** With the cache built from the same groups, the sidebar starts with
      "favorites" and "all" and then lists every provider label of the groups
      exactly once. */
  lemma SidebarListsEachLabelOnce(groups: seq<ModelGroup>)
    ensures var known := Dedup(["favorites", "all"] + CachedLabels(groups, LabelCache(groups)));
      && |known| >= 2 && known[..2] == ["favorites", "all"]
      && NoDuplicates(known)
      && forall x :: x in known[2..] <==> IsGroupLabel(groups, x)
  {
    var labels := CachedLabels(groups, LabelCache(groups));
    DedupAfterPrefix(["favorites", "all"], labels);
    CachedLabelsAreProviderLabels(groups);
  }

  /** The group a favourite model is listed under: its author, or "Other". */
  function GroupKey(m: OpenRouterModel): string {
    if m.author == "" then "Other" else m.author
  }

  predicate DistinctAuthors(gs: seq<ModelGroup>) {
    forall i, j :: 0 <= i < j < |gs| ==> gs[i].author != gs[j].author
  }

  predicate HasGroup(gs: seq<ModelGroup>, key: string) {
    exists i :: 0 <= i < |gs| && gs[i].author == key
  }

  /** `groups[key].push(m)`, creating the group at the end when it is new. */
  function AddToGroups(gs: seq<ModelGroup>, key: string, m: OpenRouterModel): (r: seq<ModelGroup>)
    ensures HasGroup(gs, key) ==> |r| == |gs|
    ensures !HasGroup(gs, key) ==> r == gs + [ModelGroup(key, [m])]
    ensures DistinctAuthors(gs) ==> forall i :: 0 <= i < |gs| ==>
      r[i].author == gs[i].author && r[i].models == gs[i].models + (if gs[i].author == key then [m] else [])
    decreases |gs|
  {
    if |gs| == 0 then [ModelGroup(key, [m])]
    else if gs[0].author == key then
      var r := [gs[0].(models := gs[0].models + [m])] + gs[1..];
      assert DistinctAuthors(gs) ==> forall i :: 0 <= i < |gs| ==>
        r[i].author == gs[i].author && r[i].models == gs[i].models + (if gs[i].author == key then [m] else []) by {
        if DistinctAuthors(gs) {
          forall i | 1 <= i < |gs| ensures r[i] == gs[i] && gs[i].author != key {
            assert gs[0].author != gs[i].author;
          }
        }
      }
      r
    else
      var rest := AddToGroups(gs[1..], key, m);
      HasGroupPastOtherHead(gs, key);
      var r := [gs[0]] + rest;
      assert DistinctAuthors(gs) ==> forall i :: 0 <= i < |gs| ==>
        r[i].author == gs[i].author && r[i].models == gs[i].models + (if gs[i].author == key then [m] else []) by {
        if DistinctAuthors(gs) {
          assert DistinctAuthors(gs[1..]);
          forall i | 1 <= i < |gs| ensures r[i] == rest[i - 1] && gs[1..][i - 1] == gs[i] {
          }
        }
      }
      r
  }

  lemma HasGroupPastOtherHead(gs: seq<ModelGroup>, key: string)
    requires |gs| > 0 && gs[0].author != key
    ensures HasGroup(gs, key) <==> HasGroup(gs[1..], key)
  {
    if HasGroup(gs, key) {
      var i :| 0 <= i < |gs| && gs[i].author == key;
      assert gs[1..][i - 1].author == key;
    }
    if HasGroup(gs[1..], key) {
      var i :| 0 <= i < |gs[1..]| && gs[1..][i].author == key;
      assert gs[i + 1].author == key;
    }
  }

  /** The favourite models under `key`, in model order. */
  function FavoritesUnder(models: seq<OpenRouterModel>, favorites: seq<string>, key: string): seq<OpenRouterModel>
    decreases |models|
  {
    if |models| == 0 then []
    else
      var m := models[|models| - 1];
      FavoritesUnder(models[..|models| - 1], favorites, key)
        + (if m.slug in favorites && GroupKey(m) == key then [m] else [])
  }

  /** The favourite models grouped by author, groups in first-seen order:
      one group per author, none empty, never more groups than models. */
  function GroupFavorites(models: seq<OpenRouterModel>, favorites: seq<string>): (r: seq<ModelGroup>)
    ensures DistinctAuthors(r)
    ensures forall i :: 0 <= i < |r| ==> |r[i].models| > 0
    ensures |r| <= |models|
    decreases |models|
  {
    if |models| == 0 then []
    else
      var m := models[|models| - 1];
      var gs := GroupFavorites(models[..|models| - 1], favorites);
      if m.slug in favorites then
        AddingFavoriteKeepsAuthorsDistinct(gs, GroupKey(m), m);
        AddToGroups(gs, GroupKey(m), m)
      else gs
  }

  /** `gs` groups the favourite models of `models`: authors are distinct,
      each group holds exactly the favourites under its author, in model
      order, and is non-empty, and every favourite has its group. */
  predicate FavoritesPartition(models: seq<OpenRouterModel>, favorites: seq<string>, gs: seq<ModelGroup>) {
    && DistinctAuthors(gs)
    && (forall i :: 0 <= i < |gs| ==> gs[i].models == FavoritesUnder(models, favorites, gs[i].author) && |gs[i].models| > 0)
    && (forall m :: m in models && m.slug in favorites ==> HasGroup(gs, GroupKey(m)))
  }

  /** Whether `m` is a favourite listed under `key`. */
  predicate FavoriteUnder(m: OpenRouterModel, favorites: seq<string>, key: string) {
    m.slug in favorites && GroupKey(m) == key
  }

  /** The position of the first favourite under `key`, or `|models|` when
      there is none. */
  function FirstFavoriteIndex(models: seq<OpenRouterModel>, favorites: seq<string>, key: string): (r: nat)
    ensures r <= |models|
    ensures r < |models| ==> FavoriteUnder(models[r], favorites, key)
    ensures forall k :: 0 <= k < r && k < |models| ==> !FavoriteUnder(models[k], favorites, key)
    decreases |models|
  {
    if |models| == 0 then 0
    else
      var init := models[..|models| - 1];
      var r := FirstFavoriteIndex(init, favorites, key);
      assert forall k :: 0 <= k < |init| ==> init[k] == models[k];
      if r < |init| then r
      else if FavoriteUnder(models[|models| - 1], favorites, key) then |init|
      else |models|
  }

  /** The groups appear in the order in which their authors' first favourite
      appears among the models. */
  predicate InFirstSeenOrder(models: seq<OpenRouterModel>, favorites: seq<string>, gs: seq<ModelGroup>) {
    forall i, j :: 0 <= i < j < |gs| ==>
      FirstFavoriteIndex(models, favorites, gs[i].author) < FirstFavoriteIndex(models, favorites, gs[j].author)
  }

  /** Each favourite model lands in exactly one group, the one of its author
      (or "Other"), and groups keep the order in which authors first appear. */
  lemma {:induction false} GroupFavoritesPartition(models: seq<OpenRouterModel>, favorites: seq<string>)
    ensures FavoritesPartition(models, favorites, GroupFavorites(models, favorites))
    ensures InFirstSeenOrder(models, favorites, GroupFavorites(models, favorites))
    decreases |models|
  {
    if |models| > 0 {
      var init := models[..|models| - 1];
      var m := models[|models| - 1];
      assert init + [m] == models;
      GroupFavoritesPartition(init, favorites);
      var before := GroupFavorites(init, favorites);
      if m.slug in favorites {
        AddingFavoriteKeepsPartition(init, m, favorites, before);
        AddingFavoriteKeepsOrder(init, m, favorites, before);
      } else {
        SkippingModelKeepsPartition(init, m, favorites, before);
        SkippingModelKeepsOrder(init, m, favorites, before);
      }
    }
  }

  lemma FirstFavoriteIndexSnoc(init: seq<OpenRouterModel>, m: OpenRouterModel, favorites: seq<string>, key: string)
    ensures FirstFavoriteIndex(init + [m], favorites, key)
         == if FirstFavoriteIndex(init, favorites, key) < |init| then FirstFavoriteIndex(init, favorites, key)
            else if FavoriteUnder(m, favorites, key) then |init| else |init| + 1
  {
    assert (init + [m])[..|init|] == init;
  }

  /** A non-empty group has its first favourite among the models. */
  lemma {:induction false} FavoritesUnderFound(models: seq<OpenRouterModel>, favorites: seq<string>, key: string)
    ensures |FavoritesUnder(models, favorites, key)| > 0 <==> FirstFavoriteIndex(models, favorites, key) < |models|
    decreases |models|
  {
    if |models| > 0 {
      var init := models[..|models| - 1];
      var m := models[|models| - 1];
      assert init + [m] == models;
      FavoritesUnderFound(init, favorites, key);
      FavoritesUnderSnoc(init, m, favorites, key);
      FirstFavoriteIndexSnoc(init, m, favorites, key);
    }
  }

  lemma SkippingModelKeepsOrder(init: seq<OpenRouterModel>, m: OpenRouterModel, favorites: seq<string>,
                                gs: seq<ModelGroup>)
    requires FavoritesPartition(init, favorites, gs) && InFirstSeenOrder(init, favorites, gs)
    requires m.slug !in favorites
    ensures InFirstSeenOrder(init + [m], favorites, gs)
  {
    forall i | 0 <= i < |gs|
      ensures FirstFavoriteIndex(init + [m], favorites, gs[i].author) == FirstFavoriteIndex(init, favorites, gs[i].author)
    {
      FavoritesUnderFound(init, favorites, gs[i].author);
      FirstFavoriteIndexSnoc(init, m, favorites, gs[i].author);
    }
  }

  lemma AddingFavoriteKeepsOrder(init: seq<OpenRouterModel>, m: OpenRouterModel, favorites: seq<string>,
                                 before: seq<ModelGroup>)
    requires FavoritesPartition(init, favorites, before) && InFirstSeenOrder(init, favorites, before)
    requires m.slug in favorites
    ensures InFirstSeenOrder(init + [m], favorites, AddToGroups(before, GroupKey(m), m))
  {
    var key := GroupKey(m);
    var gs := AddToGroups(before, key, m);
    forall i | 0 <= i < |before|
      ensures gs[i].author == before[i].author
      ensures FirstFavoriteIndex(init + [m], favorites, before[i].author) == FirstFavoriteIndex(init, favorites, before[i].author) < |init|
    {
      FavoritesUnderFound(init, favorites, before[i].author);
      FirstFavoriteIndexSnoc(init, m, favorites, before[i].author);
    }
    if !HasGroup(before, key) {
      FavoritesUnderEmpty(init, favorites, key, before);
      FavoritesUnderFound(init, favorites, key);
      FirstFavoriteIndexSnoc(init, m, favorites, key);
      assert gs[|before|].author == key;
      assert FirstFavoriteIndex(init + [m], favorites, key) == |init|;
    }
  }

  lemma SkippingModelKeepsPartition(init: seq<OpenRouterModel>, m: OpenRouterModel, favorites: seq<string>,
                                    gs: seq<ModelGroup>)
    requires FavoritesPartition(init, favorites, gs)
    requires m.slug !in favorites
    ensures FavoritesPartition(init + [m], favorites, gs)
  {
    var models := init + [m];
    assert models[..|models| - 1] == init;
    assert forall x :: x in models ==> x in init || x == m;
  }

  lemma AddingFavoriteKeepsPartition(init: seq<OpenRouterModel>, m: OpenRouterModel, favorites: seq<string>,
                                     before: seq<ModelGroup>)
    requires FavoritesPartition(init, favorites, before)
    requires m.slug in favorites
    ensures FavoritesPartition(init + [m], favorites, AddToGroups(before, GroupKey(m), m))
  {
    AddingFavoriteKeepsAuthorsDistinct(before, GroupKey(m), m);
    AddingFavoriteKeepsContents(init, m, favorites, before);
    AddingFavoriteKeepsCoverage(init, m, favorites, before);
  }

  lemma AddingFavoriteKeepsAuthorsDistinct(before: seq<ModelGroup>, key: string, m: OpenRouterModel)
    requires DistinctAuthors(before)
    ensures DistinctAuthors(AddToGroups(before, key, m))
  {
    var gs := AddToGroups(before, key, m);
    if !HasGroup(before, key) {
      forall i | 0 <= i < |before| ensures gs[i].author != gs[|before|].author {
        assert gs[i] == before[i];
      }
    }
  }

  lemma AddingFavoriteKeepsContents(init: seq<OpenRouterModel>, m: OpenRouterModel, favorites: seq<string>,
                                    before: seq<ModelGroup>)
    requires FavoritesPartition(init, favorites, before)
    requires m.slug in favorites
    ensures var gs := AddToGroups(before, GroupKey(m), m);
      forall i :: 0 <= i < |gs| ==> gs[i].models == FavoritesUnder(init + [m], favorites, gs[i].author) && |gs[i].models| > 0
  {
    var models := init + [m];
    var key := GroupKey(m);
    var gs := AddToGroups(before, key, m);
    forall i | 0 <= i < |gs|
      ensures gs[i].models == FavoritesUnder(models, favorites, gs[i].author) && |gs[i].models| > 0
    {
      FavoritesUnderSnoc(init, m, favorites, gs[i].author);
      if i == |before| {
        FavoritesUnderEmpty(init, favorites, key, before);
      }
    }
  }

  lemma FavoritesUnderSnoc(init: seq<OpenRouterModel>, m: OpenRouterModel, favorites: seq<string>, key: string)
    ensures FavoritesUnder(init + [m], favorites, key)
         == FavoritesUnder(init, favorites, key) + (if m.slug in favorites && GroupKey(m) == key then [m] else [])
  {
    assert (init + [m])[..|init|] == init;
  }

  lemma AddingFavoriteKeepsCoverage(init: seq<OpenRouterModel>, m: OpenRouterModel, favorites: seq<string>,
                                    before: seq<ModelGroup>)
    requires forall x :: x in init && x.slug in favorites ==> HasGroup(before, GroupKey(x))
    requires DistinctAuthors(before)
    ensures var gs := AddToGroups(before, GroupKey(m), m);
      forall x :: x in init + [m] && x.slug in favorites ==> HasGroup(gs, GroupKey(x))
  {
    var key := GroupKey(m);
    var gs := AddToGroups(before, key, m);
    forall x | x in init + [m] && x.slug in favorites ensures HasGroup(gs, GroupKey(x)) {
      if x in init {
        var i :| 0 <= i < |before| && before[i].author == GroupKey(x);
        assert gs[i].author == GroupKey(x);
      } else if !HasGroup(before, key) {
        assert gs[|before|].author == key;
      } else {
        var i :| 0 <= i < |before| && before[i].author == key;
        assert gs[i].author == key;
      }
    }
  }

  lemma {:induction false} FavoritesUnderEmpty(models: seq<OpenRouterModel>, favorites: seq<string>, key: string, gs: seq<ModelGroup>)
    requires forall m :: m in models && m.slug in favorites ==> HasGroup(gs, GroupKey(m))
    requires !HasGroup(gs, key)
    ensures FavoritesUnder(models, favorites, key) == []
    decreases |models|
  {
    if |models| > 0 {
      var init := models[..|models| - 1];
      assert forall x :: x in init ==> x in models;
      FavoritesUnderEmpty(init, favorites, key, gs);
    }
  }

  /** `cache.get(author) !== null`: a missing entry reads as `undefined`,
      which is not `null`, so it counts as labelled. */
  predicate NotNullLabel(cache: map<string, Option<string>>, author: string) {
    author !in cache || cache[author].Some?
  }

  /** The groups shown for the selected sidebar entry: every group whose
      cached label is not null for "all", the favourites grouped by author
      for "favorites", and otherwise the groups whose cached label is the
      selected one. */
  function FilteredModels(selectedAuthor: string, groups: seq<ModelGroup>, cache: map<string, Option<string>>,
                          models: seq<OpenRouterModel>, favorites: seq<string>): (r: seq<ModelGroup>)
    ensures selectedAuthor == "all" ==>
      && (forall i :: 0 <= i < |r| ==> r[i] in groups && NotNullLabel(cache, r[i].author))
      && (forall g :: g in groups && NotNullLabel(cache, g.author) ==> g in r)
    ensures selectedAuthor == "favorites" ==>
      FavoritesPartition(models, favorites, r) && InFirstSeenOrder(models, favorites, r)
    ensures selectedAuthor != "all" && selectedAuthor != "favorites" ==>
      && (forall i :: 0 <= i < |r| ==> r[i] in groups && r[i].author in cache && cache[r[i].author] == Some(selectedAuthor))
      && (forall g :: g in groups && g.author in cache && cache[g.author] == Some(selectedAuthor) ==> g in r)
  {
    if selectedAuthor == "favorites" then
      GroupFavoritesPartition(models, favorites);
      GroupFavorites(models, favorites)
    else
      Filter(groups, ShownUnder(selectedAuthor, cache))
  }

  /** The group filter for "all" (every author whose label is not null) or
      for one label. */
  function ShownUnder(selectedAuthor: string, cache: map<string, Option<string>>): ModelGroup -> bool {
    if selectedAuthor == "all" then (g: ModelGroup) => NotNullLabel(cache, g.author)
    else (g: ModelGroup) => g.author in cache && cache[g.author] == Some(selectedAuthor)
  }

  /** For "all" or a label, the shown groups are the matching groups in their
      original order: picked at strictly increasing positions, none missed. */
  lemma FilteredGroupsKeepOrder(selectedAuthor: string, groups: seq<ModelGroup>, cache: map<string, Option<string>>,
                                models: seq<OpenRouterModel>, favorites: seq<string>) returns (idx: seq<nat>)
    requires selectedAuthor != "favorites"
    ensures var r := FilteredModels(selectedAuthor, groups, cache, models, favorites);
      && |idx| == |r|
      && (forall k :: 0 <= k < |idx| ==> idx[k] < |groups| && r[k] == groups[idx[k]])
      && (forall k, l :: 0 <= k < l < |idx| ==> idx[k] < idx[l])
      && (forall j :: 0 <= j < |groups| && selectedAuthor == "all" && NotNullLabel(cache, groups[j].author) ==> j in idx)
      && (forall j :: 0 <= j < |groups| && groups[j].author in cache && cache[groups[j].author] == Some(selectedAuthor) ==> j in idx)
  {
    var p := ShownUnder(selectedAuthor, cache);
    idx := FilterSelectsInOrder(groups, p);
    assert forall j :: 0 <= j < |groups| ==> groups[j] in groups;
  }

  /** With "all" selected and every author labelled, every group is shown in
      its order. */
  lemma AllShowsLabelledGroupsInOrder(groups: seq<ModelGroup>, models: seq<OpenRouterModel>, favorites: seq<string>)
    requires forall g :: g in groups ==> GetProviderLabel(g.author).Some?
    ensures FilteredModels("all", groups, LabelCache(groups), models, favorites) == groups
  {
    var cache := LabelCache(groups);
    FilterAllKept(groups, ShownUnder("all", cache));
  }

  /** With the cache built from the same groups, a selected label shows
      exactly the groups whose author's provider label it is. */
  lemma LabelSelectionMatchesProvider(selectedAuthor: string, groups: seq<ModelGroup>,
                                      models: seq<OpenRouterModel>, favorites: seq<string>)
    requires selectedAuthor != "all" && selectedAuthor != "favorites"
    ensures var r := FilteredModels(selectedAuthor, groups, LabelCache(groups), models, favorites);
      forall g :: g in r <==> g in groups && GetProviderLabel(g.author) == Some(selectedAuthor)
  {
    var cache := LabelCache(groups);
    var r := FilteredModels(selectedAuthor, groups, cache, models, favorites);
    forall g | g in r ensures g in groups && GetProviderLabel(g.author) == Some(selectedAuthor) {
      var i :| 0 <= i < |r| && r[i] == g;
    }
  }

  /** The test `s !== slug` of the removal filter. */
  function OtherThan(x: string): string -> bool {
    (y: string) => y != x
  }

  /** `xs` with every occurrence of `x` removed, the rest in order: it is the
      filter keeping every element other than `x`. */
  function Without(xs: seq<string>, x: string): (r: seq<string>)
    ensures r == Filter(xs, OtherThan(x))
    ensures x !in r
    ensures forall y :: y != x ==> (y in r <==> y in xs)
    ensures x !in xs ==> r == xs
    decreases |xs|
  {
    if |xs| == 0 then []
    else
      var init := xs[..|xs| - 1];
      var last := xs[|xs| - 1];
      assert forall y :: y in xs <==> y in init || y == last;
      if x !in xs then
        assert init + [last] == xs;
        FilterAllKept(xs, OtherThan(x));
        xs
      else Without(init, x) + (if last == x then [] else [last])
  }

  /** Removal keeps every other slug, every copy of it, at strictly
      increasing positions of the original list. */
  lemma WithoutKeepsOthersInOrder(xs: seq<string>, x: string) returns (idx: seq<nat>)
    ensures SelectsInOrder(Without(xs, x), xs, OtherThan(x), idx)
  {
    idx := FilterSelectsInOrder(xs, OtherThan(x));
  }

  function IsFavorite(favorites: seq<string>, slug: string): bool {
    slug in favorites
  }

  /** Add the slug at the end when absent, remove every copy when present. */
  function ToggleFavorite(favorites: seq<string>, slug: string): (r: seq<string>)
    ensures IsFavorite(r, slug) <==> !IsFavorite(favorites, slug)
    ensures forall s :: s != slug ==> (IsFavorite(r, s) <==> IsFavorite(favorites, s))
  {
    if slug in favorites then Without(favorites, slug) else favorites + [slug]
  }

  /** Removing a favourite keeps the other favourites, every copy, in their
      order; adding one appends exactly one copy at the end; a list without
      duplicates stays so; toggling an absent slug twice restores the list. */
  lemma ToggleFavoriteKeepsOthers(favorites: seq<string>, slug: string) returns (idx: seq<nat>)
    ensures slug in favorites ==> ToggleFavorite(favorites, slug) == Filter(favorites, OtherThan(slug))
    ensures slug in favorites ==> SelectsInOrder(ToggleFavorite(favorites, slug), favorites, OtherThan(slug), idx)
    ensures slug !in favorites ==> ToggleFavorite(favorites, slug)[..|favorites|] == favorites
    ensures slug !in favorites ==>
      |ToggleFavorite(favorites, slug)| == |favorites| + 1 && ToggleFavorite(favorites, slug)[|favorites|] == slug
    ensures NoDuplicates(favorites) ==> NoDuplicates(ToggleFavorite(favorites, slug))
    ensures Without(ToggleFavorite(favorites, slug), slug) == Without(favorites, slug)
    ensures slug !in favorites ==> ToggleFavorite(ToggleFavorite(favorites, slug), slug) == favorites
  {
    idx := WithoutKeepsOthersInOrder(favorites, slug);
    if slug !in favorites {
      var added := favorites + [slug];
      assert added[..|added| - 1] == favorites;
      assert Without(added, slug) == Without(favorites, slug) + [];
      if NoDuplicates(favorites) {
        AppendAbsentKeepsNoDuplicates(favorites, slug);
      }
    } else if NoDuplicates(favorites) {
      SelectionKeepsNoDuplicates(Without(favorites, slug), favorites, OtherThan(slug), idx);
    }
  }
}

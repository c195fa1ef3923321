/** Helpers of the organization screens: avatar initials, slug normalisation
    and the role-management check. */
module OrganizationUtils {
  import opened Optional
  import opened Text
  import opened Seqs
  import opened OrganizationTypes

  /** A piece of `name.split(" ")` that has a first character. */
  predicate IsWord(w: string) { |w| > 0 }

  /** `words.map(w => w[0]).join("")`: an empty piece gives `undefined`,
      which `join` renders as nothing. The result is the first character of
      each non-empty piece, in order. */
  function FirstChars(words: seq<string>): (r: string)
    ensures |r| == |Filter(words, IsWord)|
    ensures forall i :: 0 <= i < |r| ==> r[i] == Filter(words, IsWord)[i][0]
    decreases |words|
  {
    if |words| == 0 then ""
    else
      var init := words[..|words| - 1];
      var last := words[|words| - 1];
      FirstChars(init) + (if IsWord(last) then [last[0]] else "")
  }

  /** The non-empty space-separated words of a name. */
  function Words(name: string): seq<string> {
    Filter(Split(name, ' '), IsWord)
  }

  /** Avatar initials: the upper-cased first characters of the first two
      words of the name. */
  function GetInitials(name: string): (r: string)
    ensures |r| <= 2
    ensures |r| == if |Words(name)| < 2 then |Words(name)| else 2
    ensures forall i :: 0 <= i < |r| ==> r[i] == UpperChar(Words(name)[i][0])
  {
    var upper := Upper(FirstChars(Split(name, ' ')));
    if |upper| <= 2 then upper else upper[..2]
  }

  predicate IsSlugChar(c: char) {
    IsAsciiLower(c) || IsDigit(c) || c == '-'
  }

  predicate IsSlug(s: string) {
    forall i :: 0 <= i < |s| ==> IsSlugChar(s[i])
  }

  /** A lower-case ASCII letter or a digit. */
  predicate IsLowerOrDigit(c: char) {
    IsAsciiLower(c) || IsDigit(c)
  }

  /** The slug read off the value in one left-to-right pass: a run of
      whitespace gives exactly one hyphen; any other character is lower-cased
      and kept when it is then a letter, a digit or a hyphen. */
  function SlugOf(value: string): string
    decreases |value|
  {
    if |value| == 0 then ""
    else if IsJsSpace(value[0]) then "-" + SlugOf(DropWhile(value[1..], IsJsSpace))
    else (if IsSlugChar(LowerChar(value[0])) then [LowerChar(value[0])] else "") + SlugOf(value[1..])
  }

  /** Lower-case the value, turn every run of whitespace into one hyphen and
      drop everything that is not a lower-case letter, a digit or a hyphen. */
  function NormalizeSlug(value: string): (r: string)
    ensures r == SlugOf(value)
    ensures IsSlug(r)
    ensures |r| <= |value|
    ensures Keep(r, IsLowerOrDigit) == Keep(Lower(value), IsLowerOrDigit)
  {
    PipelineIsOnePass(value);
    SlugKeepsLettersAndDigits(value);
    Keep(ReplaceRuns(Lower(value), IsJsSpace, '-'), IsSlugChar)
  }

  /** The three-step pipeline computes the one-pass slug. */
  lemma {:induction false} PipelineIsOnePass(value: string)
    ensures Keep(ReplaceRuns(Lower(value), IsJsSpace, '-'), IsSlugChar) == SlugOf(value)
    decreases |value|
  {
    if |value| > 0 {
      var l := Lower(value);
      assert l[0] == LowerChar(value[0]);
      assert l[1..] == Lower(value[1..]);
      if IsJsSpace(value[0]) {
        var rest := DropWhile(value[1..], IsJsSpace);
        LowerDropWhileSpace(value[1..]);
        PipelineIsOnePass(rest);
        var tail := ReplaceRuns(Lower(rest), IsJsSpace, '-');
        assert ReplaceRuns(l, IsJsSpace, '-') == "-" + tail;
        assert ("-" + tail)[1..] == tail;
      } else {
        PipelineIsOnePass(value[1..]);
        var tail := ReplaceRuns(Lower(value[1..]), IsJsSpace, '-');
        assert ReplaceRuns(l, IsJsSpace, '-') == [l[0]] + tail;
        assert ([l[0]] + tail)[1..] == tail;
      }
    }
  }

  /** The one-pass slug keeps every letter and digit of the lower-cased
      value, in order, and no other letter or digit. */
  lemma {:induction false} SlugKeepsLettersAndDigits(value: string)
    ensures Keep(SlugOf(value), IsLowerOrDigit) == Keep(Lower(value), IsLowerOrDigit)
    decreases |value|
  {
    if |value| > 0 {
      var c := LowerChar(value[0]);
      LowerCons(value);
      KeepCons(c, Lower(value[1..]), IsLowerOrDigit);
      if IsJsSpace(value[0]) {
        var rest := DropWhile(value[1..], IsJsSpace);
        assert !IsLowerOrDigit(c) by { LowerKeepsSpace(value[0]); }
        LeadingSpacesKeepNoLetters(value[1..]);
        SlugKeepsLettersAndDigits(rest);
        KeepCons('-', SlugOf(rest), IsLowerOrDigit);
        assert "-" + SlugOf(rest) == ['-'] + SlugOf(rest);
      } else {
        SlugKeepsLettersAndDigits(value[1..]);
        var head := if IsSlugChar(c) then [c] else "";
        KeepAppend(head, SlugOf(value[1..]), IsLowerOrDigit);
        if IsSlugChar(c) {
          KeepCons(c, "", IsLowerOrDigit);
          assert [c] + "" == [c];
        }
      }
    }
  }

  /** Leading whitespace holds no letter or digit. */
  lemma {:induction false} LeadingSpacesKeepNoLetters(t: string)
    ensures Keep(Lower(t), IsLowerOrDigit) == Keep(Lower(DropWhile(t, IsJsSpace)), IsLowerOrDigit)
    decreases |t|
  {
    if |t| > 0 && IsJsSpace(t[0]) {
      var c := LowerChar(t[0]);
      assert !IsLowerOrDigit(c) by { LowerKeepsSpace(t[0]); }
      LowerCons(t);
      KeepCons(c, Lower(t[1..]), IsLowerOrDigit);
      LeadingSpacesKeepNoLetters(t[1..]);
    }
  }

  /** A whitespace run, however long, becomes exactly one hyphen in front of
      the slug of what follows it. */
  lemma WhitespaceRunIsOneHyphen(ws: string, rest: string)
    requires |ws| > 0 && forall i :: 0 <= i < |ws| ==> IsJsSpace(ws[i])
    requires |rest| > 0 ==> !IsJsSpace(rest[0])
    ensures NormalizeSlug(ws + rest) == "-" + NormalizeSlug(rest)
  {
    var v := ws + rest;
    assert v[0] == ws[0];
    assert v[1..] == ws[1..] + rest;
    DropSpacesBefore(ws[1..], rest);
  }

  /** A slug is left as it is. */
  lemma SlugIsFixedPoint(s: string)
    requires IsSlug(s)
    ensures NormalizeSlug(s) == s
  {
    assert Lower(s) == s;
    ReplaceRunsWithoutRunsIsIdentity(s, IsJsSpace, '-');
    KeepAllIsIdentity(s, IsSlugChar);
  }

  /** Normalising twice is normalising once. */
  lemma NormalizeSlugIdempotent(value: string)
    ensures NormalizeSlug(NormalizeSlug(value)) == NormalizeSlug(value)
  {
    SlugIsFixedPoint(NormalizeSlug(value));
  }

  /** The rank of a role name; names outside the hierarchy rank 0. */
  function Rank(name: string): (r: int)
    ensures r >= 0
    ensures r == 0 <==> ParseRole(name).None?
    ensures forall m: MemberRole :: name == RoleName(m) ==> r == RoleHierarchy[name]
  {
    HierarchyRanksEveryRole();
    if name in RoleHierarchy then RoleHierarchy[name] else 0
  }

  /** Whether a member acting with `currentRole` may manage a member holding
      `targetRole`: strictly higher rank only, and never without a role. */
  function CanManageRole(currentRole: Option<string>, targetRole: string): (b: bool)
    ensures !IsSet(currentRole) ==> !b
    ensures b ==> ParseRole(currentRole.value).Some?
    ensures IsSet(currentRole) && ParseRole(currentRole.value).Some? && ParseRole(targetRole).None? ==> b
  {
    IsSet(currentRole) && Rank(currentRole.value) > Rank(targetRole)
  }

  /** No role manages its own role, owner included. */
  lemma CanManageRoleIrreflexive(role: string)
    ensures !CanManageRole(Some(role), role)
  {
  }

  /** Management never goes both ways, and it composes. */
  lemma CanManageRoleAsymmetricTransitive(a: string, b: string, c: string)
    ensures CanManageRole(Some(a), b) ==> !CanManageRole(Some(b), a)
    ensures CanManageRole(Some(a), b) && CanManageRole(Some(b), c) ==> CanManageRole(Some(a), c)
  {
  }

  /** Between roles, management is exactly the strict order owner > admin > member. */
  lemma CanManageRoleFollowsHierarchy()
    ensures CanManageRole(Some("owner"), "admin") && CanManageRole(Some("owner"), "member")
    ensures CanManageRole(Some("admin"), "member")
    ensures !CanManageRole(Some("admin"), "admin") && !CanManageRole(Some("admin"), "owner")
    ensures !CanManageRole(Some("member"), "owner") && !CanManageRole(Some("member"), "member")
    ensures !CanManageRole(None, "member")
  {
  }

  /** What `ROLE_HIERARCHY[name]` evaluates to on the object literal: an own
      number, `undefined`, or a member inherited from `Object.prototype`
      (a function, or the prototype object for `__proto__`). */
  datatype JsValue = Undefined | Num(n: int) | Inherited

  /** The property names every object literal inherits from `Object.prototype`. */
  const ObjectPrototypeKeys: set<string> := {
    "constructor", "hasOwnProperty", "isPrototypeOf", "propertyIsEnumerable",
    "toLocaleString", "toString", "valueOf", "__proto__",
    "__defineGetter__", "__defineSetter__", "__lookupGetter__", "__lookupSetter__"
  }

  function HierarchyProperty(name: string): JsValue {
    if name in RoleHierarchy then Num(RoleHierarchy[name])
    else if name in ObjectPrototypeKeys then Inherited
    else Undefined
  }

  /** `ROLE_HIERARCHY[name] ?? 0`: only `undefined` is replaced by 0. */
  function LevelAsWritten(name: string): JsValue {
    match HierarchyProperty(name)
    case Undefined => Num(0)
    case v => v
  }

  /** `a > b`: a non-numeric operand converts to NaN and the comparison is false. */
  predicate GreaterAsWritten(a: JsValue, b: JsValue) {
    a.Num? && b.Num? && a.n > b.n
  }

  /** The check as the code evaluates it. */
  function CanManageRoleAsWritten(currentRole: Option<string>, targetRole: string): (b: bool)
    ensures b ==> CanManageRole(currentRole, targetRole)
    ensures currentRole.Some? && currentRole.value !in ObjectPrototypeKeys && targetRole !in ObjectPrototypeKeys ==>
      b == CanManageRole(currentRole, targetRole)
  {
    IsSet(currentRole) && GreaterAsWritten(LevelAsWritten(currentRole.value), LevelAsWritten(targetRole))
  }

  /** An owner cannot manage a member whose role string is "constructor",
      although that string is not a role and should rank 0. */
  lemma InheritedNameEscapesRankZero()
    ensures !CanManageRoleAsWritten(Some("owner"), "constructor")
    ensures CanManageRole(Some("owner"), "constructor")
  {
    assert "constructor" in ObjectPrototypeKeys;
    assert ParseRole("constructor").None?;
  }
}

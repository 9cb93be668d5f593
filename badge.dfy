/** `TechsStorage.normalizeToBadge` (src/tech-detector/techs-storage.ts):
    turns a package or technology name into a badge, a GitHub-topic-safe
    token of `[a-z0-9-]`. */
module Badge {
  import opened Text
  import opened Tags

  /** `.` and the class `[+_\s]`, the characters replaced by `-`. */
  predicate IsDot(c: char) { c == '.' }
  predicate IsBadgeSeparator(c: char) { c == '+' || c == '_' || IsSpace(c) }

  /** Scoped package names: `@types/x` becomes `x`, any other `@scope/a/b`
      becomes `a-b`; a name without `/` after the `@` is kept. */
  function UnwrapScope(tech: string): string {
    if StartsWith(tech, "@") then
      var parts := Split(tech, '/');
      if parts[0] == "@types" && |parts| > 1 then parts[1]
      else if |parts| > 1 then Join(parts[1..], '-')
      else tech
    else tech
  }

  /** The full normalisation: unwrap the scope, lower-case, turn separators
      into `-`, drop the rest, collapse and trim hyphens, and fall back to
      `unknown` when nothing is left. */
  function NormalizeToBadge(tech: string): (badge: string)
    ensures badge != ""
    ensures IsTagShaped(badge)
  {
    Canonical(UnwrapScope(tech))
  }

  /** Every stage after the scope is unwrapped. */
  function Canonical(name: string): (badge: string)
    ensures badge != ""
    ensures IsTagShaped(badge)
  {
    var hyphenated := Hyphenate(Hyphenate(Lower(name), IsDot), IsBadgeSeparator);
    var cleaned := TrimHyphens(CollapseHyphens(KeepTagChars(hyphenated)));
    CleanShape(hyphenated);
    UnknownShaped("unknown");
    if cleaned == "" then "unknown" else cleaned
  }

  /** The fallback badge is tag-shaped. */
  lemma UnknownShaped(u: string)
    requires u == "unknown"
    ensures u != "" && IsTagShaped(u)
  {
    assert forall i | 0 <= i < |u| :: 'a' <= u[i] <= 'z';
  }

  /** A non-empty tag-shaped string is its own badge. */
  lemma BadgeFixed(b: string)
    requires b != "" && IsTagShaped(b)
    ensures Canonical(b) == b
    ensures NormalizeToBadge(b) == b
  {
    TagShapedUnchanged(b);
    CleanFixed(b);
  }

  /** The first stages leave a tag-shaped string unchanged. */
  lemma TagShapedUnchanged(b: string)
    requires b != "" && IsTagShaped(b)
    ensures UnwrapScope(b) == b
    ensures Lower(b) == b
    ensures Hyphenate(Hyphenate(b, IsDot), IsBadgeSeparator) == b
  {
    NotScoped(b);
    NoCapitals(b);
    NoSeparators(b);
  }

  lemma NotScoped(b: string)
    requires b != "" && IsTagShaped(b)
    ensures UnwrapScope(b) == b
  {
    assert IsTagChar(b[0]);
    assert b[..1] != "@";
  }

  lemma NoCapitals(b: string)
    requires IsTagShaped(b)
    ensures Lower(b) == b
  {
    assert NoUpper(b) by {
      forall i | 0 <= i < |b| ensures !IsUpper(b[i]) { assert IsTagChar(b[i]); }
    }
    LowerFixed(b);
  }

  lemma NoSeparators(b: string)
    requires AllTagChars(b)
    ensures Hyphenate(Hyphenate(b, IsDot), IsBadgeSeparator) == b
  {
    var h1 := Hyphenate(b, IsDot);
    forall i | 0 <= i < |b| ensures h1[i] == b[i] {
      assert IsTagChar(b[i]);
    }
    assert h1 == b;
    var h2 := Hyphenate(b, IsBadgeSeparator);
    forall i | 0 <= i < |b| ensures h2[i] == b[i] {
      assert IsTagChar(b[i]);
    }
  }

  /** Normalising a badge again changes nothing. */
  lemma NormalizeToBadgeIdempotent(tech: string)
    ensures NormalizeToBadge(NormalizeToBadge(tech)) == NormalizeToBadge(tech)
  {
    BadgeFixed(NormalizeToBadge(tech));
  }

  /** `@types/<name>` unwraps to the first `/`-piece of `<name>`; any other
      scope `@<scope>/<rest>` unwraps to the pieces of `<rest>` joined by `-`. */
  lemma UnwrapScoped(scope: string, rest: string)
    requires '/' !in scope
    ensures UnwrapScope("@" + scope + "/" + rest) ==
      if scope == "types" then Split(rest, '/')[0] else Join(Split(rest, '/'), '-')
  {
    var tech := "@" + scope + "/" + rest;
    assert '/' !in "@" + scope;
    SplitAfter("@" + scope, rest, '/');
    assert Split(tech, '/') == ["@" + scope] + Split(rest, '/');
    assert StartsWith(tech, "@");
    assert ("@" + scope)[1..] == scope;
  }

  /** A type-definition package loses its scope: `@types/react` is `react`. */
  lemma TypesScope(name: string)
    requires '/' !in name
    ensures NormalizeToBadge("@types/" + name) == Canonical(name)
  {
    assert "@types/" + name == "@" + "types" + "/" + name;
    UnwrapScoped("types", name);
    SplitNone(name, '/');
  }

  /** Any other scope is dropped and the rest kept: `@babel/core` is `core`,
      `@scope/a/b` is `a-b`. */
  lemma OtherScope(scope: string, name: string)
    requires '/' !in scope && '/' !in name && scope != "types"
    ensures NormalizeToBadge("@" + scope + "/" + name) == Canonical(name)
  {
    UnwrapScoped(scope, name);
    SplitNone(name, '/');
  }

  lemma NestedScope(scope: string, a: string, b: string)
    requires '/' !in scope && '/' !in a && '/' !in b && scope != "types"
    ensures NormalizeToBadge("@" + scope + "/" + a + "/" + b) == Canonical(a + "-" + b)
  {
    assert "@" + scope + "/" + a + "/" + b == "@" + scope + "/" + (a + "/" + b);
    UnwrapScoped(scope, a + "/" + b);
    SplitAfter(a, b, '/');
    SplitNone(b, '/');
    assert Split(a + "/" + b, '/') == [a, b];
  }

  /** A tag-shaped string reaches the cleaning stages unchanged. */
  lemma CanonicalVia(name: string, h: string)
    requires Hyphenate(Hyphenate(Lower(name), IsDot), IsBadgeSeparator) == h
    requires h != "" && IsTagShaped(h)
    ensures Canonical(name) == h
  {
    CleanFixed(h);
  }

  // The examples below take the name as a parameter fixed by `requires` and
  // gather each literal fact in a lemma of its own, which keeps the verifier
  // from unfolding every stage on a literal at once.

  lemma ReactFacts()
    ensures "@types/react" == "@types/" + "react" && '/' !in "react"
    ensures "react" != "" && IsTagShaped("react")
  {
  }

  /** `@types/react` is `react`. */
  lemma TypesReactExample(t: string)
    requires t == "@types/react"
    ensures NormalizeToBadge(t) == "react"
  {
    ReactFacts();
    TypesScope("react");
    BadgeFixed("react");
  }

  lemma BabelFacts()
    ensures "@babel/core" == "@" + "babel" + "/" + "core"
    ensures '/' !in "babel" && '/' !in "core" && "babel" != "types"
    ensures "core" != "" && IsTagShaped("core")
  {
  }

  /** `@babel/core` is `core`. */
  lemma BabelCoreExample(t: string)
    requires t == "@babel/core"
    ensures NormalizeToBadge(t) == "core"
  {
    BabelFacts();
    OtherScope("babel", "core");
    BadgeFixed("core");
  }

  lemma NestedFacts()
    ensures "@scope/a/b" == "@" + "scope" + "/" + "a" + "/" + "b"
    ensures '/' !in "scope" && '/' !in "a" && '/' !in "b" && "scope" != "types"
    ensures "a" + "-" + "b" == "a-b" && IsTagShaped("a-b")
  {
  }

  /** `@scope/a/b` is `a-b`. */
  lemma NestedScopeExample(t: string)
    requires t == "@scope/a/b"
    ensures NormalizeToBadge(t) == "a-b"
  {
    NestedFacts();
    NestedScope("scope", "a", "b");
    BadgeFixed("a-b");
  }

  lemma NextJsUnscoped() ensures UnwrapScope("Next.js") == "Next.js" {
    assert "Next.js"[..1][0] != "@"[0];
  }
  lemma NextJsLower() ensures Lower("Next.js") == "next.js" { }
  lemma NextJsDots() ensures Hyphenate("next.js", IsDot) == "next-js" { }
  lemma NextJsShape() ensures "next-js" != "" && IsTagShaped("next-js") { }

  /** `Next.js` is `next-js`. */
  lemma NextJsExample(t: string)
    requires t == "Next.js"
    ensures NormalizeToBadge(t) == "next-js"
  {
    NextJsUnscoped();
    NextJsLower();
    NextJsDots();
    NextJsShape();
    NoSeparators("next-js");
    CanonicalVia("Next.js", "next-js");
  }

  lemma CppUnscoped() ensures UnwrapScope("C++") == "C++" {
    assert "C++"[..1][0] != "@"[0];
  }
  lemma CppLower() ensures Lower("C++") == "c++" { }
  lemma CppDots() ensures Hyphenate("c++", IsDot) == "c++" { }
  lemma CppSeparators() ensures Hyphenate("c++", IsBadgeSeparator) == "c--" {
    var h := Hyphenate("c++", IsBadgeSeparator);
    assert IsBadgeSeparator('+') && !IsBadgeSeparator('c');
    assert h[0] == 'c' && h[1] == '-' && h[2] == '-';
  }
  lemma CppClean() ensures TrimHyphens(CollapseHyphens(KeepTagChars("c--"))) == "c" {
    assert KeepTagChars("c--") == "c--";
    assert CollapseHyphens("c--") == "c-";
  }

  /** `C++` is `c`: the plus signs become hyphens, which are then collapsed
      and trimmed. */
  lemma CPlusPlusExample(t: string)
    requires t == "C++"
    ensures NormalizeToBadge(t) == "c"
  {
    CppUnscoped();
    CppLower();
    CppDots();
    CppSeparators();
    CppClean();
  }

  lemma DotsUnscoped() ensures UnwrapScope("...") == "..." {
    assert "..."[..1][0] != "@"[0];
  }
  lemma DotsHyphenated()
    ensures Hyphenate(Hyphenate(Lower("..."), IsDot), IsBadgeSeparator) == "---"
  {
    assert Lower("...") == "...";
    assert Hyphenate("...", IsDot) == "---";
    assert Hyphenate("---", IsBadgeSeparator) == "---";
  }
  lemma DotsClean() ensures TrimHyphens(CollapseHyphens(KeepTagChars("---"))) == "" {
    assert CollapseHyphens("---") == "-";
  }

  /** A name made only of dots falls back to `unknown`. */
  lemma DotsExample(t: string)
    requires t == "..."
    ensures NormalizeToBadge(t) == "unknown"
  {
    DotsUnscoped();
    DotsHyphenated();
    DotsClean();
  }
}

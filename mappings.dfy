/** The alias table of src/tech-detector/tech-name-mappings.ts: package
    names, lower-case, mapped to the name a technology has in the icon
    catalogue, and the case-insensitive lookup that falls back to its input. */
module TechNameMappings {
  import opened Text

  /** The entries for UI libraries and icon sets. */
  const UiLibraries: map<string, string> := map[
    // UI Libraries & Icon Sets
    "lucide-react" := "Lucide",
    "lucide" := "Lucide",
    "@radix-ui/react-alert-dialog" := "Radix UI",
    "@radix-ui/react-avatar" := "Radix UI",
    "@radix-ui/react-dialog" := "Radix UI",
    "@radix-ui/react-dropdown-menu" := "Radix UI",
    "@radix-ui/react-icons" := "Radix UI",
    "@radix-ui/react-label" := "Radix UI",
    "@radix-ui/react-navigation-menu" := "Radix UI",
    "@radix-ui/react-popover" := "Radix UI",
    "@radix-ui/react-select" := "Radix UI",
    "@radix-ui/react-separator" := "Radix UI",
    "@radix-ui/react-slot" := "Radix UI",
    "@radix-ui/react-tabs" := "Radix UI"
  ]

  /** The entries for the React and Next.js ecosystems. */
  const Frameworks: map<string, string> := map[
    // React Ecosystem
    "react-dom" := "React",
    "react-router" := "React Router",
    "react-router-dom" := "React Router",
    "react-hook-form" := "React Hook Form",
    "@testing-library/react" := "Testing Library",
    "@testing-library/user-event" := "Testing Library",
    "@testing-library/jest-dom" := "Testing Library",
    // Next.js Ecosystem
    "next-intl" := "Next.js",
    "next-themes" := "Next.js",
    "next-auth" := "NextAuth.js",
    "eslint-config-next" := "Next.js"
  ]

  /** The entries for CSS, styling and build tools. */
  const StylingAndBuild: map<string, string> := map[
    // CSS & Styling
    "tailwind-merge" := "Tailwind CSS",
    "tailwind-scrollbar" := "Tailwind CSS",
    "tailwind-variants" := "Tailwind CSS",
    "tw-animate-css" := "Tailwind CSS",
    "@tailwindcss/postcss" := "Tailwind CSS",
    "class-variance-authority" := "Tailwind CSS",
    // Build Tools & Bundlers
    "@vitejs/plugin-react" := "Vite",
    "vite-tsconfig-paths" := "Vite"
  ]

  /** The entries for testing, TypeScript, linting and formatting. */
  const Checking: map<string, string> := map[
    // Testing
    "@vitest/coverage-v8" := "Vitest",
    "@vitest/ui" := "Vitest",
    "@playwright/test" := "Playwright",
    "jsdom" := "jsdom",
    // TypeScript
    "@typescript-eslint/eslint-plugin" := "TypeScript",
    "@typescript-eslint/parser" := "TypeScript",
    "@types/node" := "Node.js",
    "@types/react" := "React",
    "@types/react-dom" := "React",
    // Linting & Formatting
    "@eslint/eslintrc" := "ESLint",
    "eslint-plugin-react" := "React",
    "eslint-plugin-react-hooks" := "React",
    "eslint-plugin-jsx-a11y" := "React"
  ]

  /** The entries for monitoring, package tools, forms, file upload and the rest. */
  const Utilities: map<string, string> := map[
    // Performance & Monitoring
    "@lhci/cli" := "Lighthouse",
    "lighthouse" := "Lighthouse",
    // Package Managers & Tools
    "husky" := "Husky",
    "cross-env" := "cross-env",
    "nyc" := "nyc",
    "wait-on" := "wait-on",
    // Form Handling
    "@hookform/resolvers" := "React Hook Form",
    // File Upload
    "@uploadthing/react" := "UploadThing",
    "uploadthing" := "UploadThing",
    // Misc
    "clsx" := "clsx",
    "sonner" := "Sonner",
    "zod" := "Zod",
    "thirdweb" := "thirdweb"
  ]

  /** `TECH_NAME_MAPPINGS`: the parts above in source order. No key is in
      two parts, so the union is the object literal. */
  const Mappings: map<string, string> := UiLibraries + Frameworks + StylingAndBuild + Checking + Utilities

  /** `TECH_NAME_MAPPINGS[packageName.toLowerCase()] ?? packageName` */
  function GetMappedTechName(packageName: string): (name: string)
    ensures name == packageName || name in Mappings.Values
  {
    var key := Lower(packageName);
    if key in Mappings then Mappings[key] else packageName
  }

  /** The characters every key is made of: `[a-z0-9@/-]`. */
  predicate IsKeyChar(c: char) {
    'a' <= c <= 'z' || IsDigit(c) || c == '@' || c == '/' || c == '-'
  }

  predicate IsKeyShaped(k: string) {
    forall i | 0 <= i < |k| :: IsKeyChar(k[i])
  }

  /** Starts with `@r`: of all keys, only the `@radix-ui/` ones do. */
  predicate IsRadixLike(k: string) {
    |k| >= 2 && k[0] == '@' && k[1] == 'r'
  }

  /** Every key is key-shaped, and every key starting with `@r` is mapped to
      `Radix UI`. */
  predicate KeyFacts(m: map<string, string>) {
    forall k | k in m :: IsKeyShaped(k) && (IsRadixLike(k) ==> m[k] == "Radix UI")
  }

  /** A value whose lower-cased form has a character no key has maps to
      itself. */
  lemma NotAKey(v: string, i: nat)
    requires i < |v| && !IsKeyChar(LowerChar(v[i]))
    ensures GetMappedTechName(v) == v
  {
    TableKeys();
    assert Lower(v)[i] == LowerChar(v[i]);
    assert !IsKeyShaped(Lower(v));
  }

  /** A value whose lower-cased form is a key mapped back to it is fixed. */
  lemma FixedVia(v: string, k: string)
    requires Lower(v) == k && k in Mappings && Mappings[k] == v
    ensures GetMappedTechName(v) == v
  {
  }

  /** A value whose lower-cased form is not a key is fixed. */
  lemma FixedAbsent(v: string, k: string)
    requires Lower(v) == k && k !in Mappings
    ensures GetMappedTechName(v) == v
  {
  }

  /** The table maps each of its values to itself. */
  predicate ValuesFixed(m: map<string, string>) {
    forall k | k in m :: GetMappedTechName(m[k]) == m[k]
  }

  predicate ValuesIn(m: map<string, string>, vs: set<string>) {
    forall k | k in m :: m[k] in vs
  }

  predicate AllFixed(vs: set<string>) {
    forall v | v in vs :: GetMappedTechName(v) == v
  }

  lemma AllFixedUnion(a: set<string>, b: set<string>)
    requires AllFixed(a) && AllFixed(b)
    ensures AllFixed(a + b)
  {
  }

  lemma FixedValues(m: map<string, string>, vs: set<string>)
    requires ValuesIn(m, vs) && AllFixed(vs)
    ensures ValuesFixed(m)
  {
  }

  lemma UnionValuesFixed(a: map<string, string>, b: map<string, string>)
    requires ValuesFixed(a) && ValuesFixed(b)
    ensures ValuesFixed(a + b)
  {
  }

  /** The keys of a map made of key-shaped keys are lower-case. */
  lemma KeyShapedLowercase(m: map<string, string>)
    requires KeyFacts(m)
    ensures forall k | k in m :: NoUpper(k) && Lower(k) == k
  {
    forall k | k in m ensures NoUpper(k) && Lower(k) == k {
      assert forall i | 0 <= i < |k| :: IsKeyChar(k[i]);
      LowerFixed(k);
    }
  }

  /** Every key is lower-case, so it is its own lower-cased form. */
  lemma KeysLowercase()
    ensures forall k | k in Mappings :: NoUpper(k) && Lower(k) == k
  {
    TableKeys();
    KeyShapedLowercase(Mappings);
  }

  /** A name whose lower-cased form is a key maps to that key's value, in
      whatever casing it is given: inputs differing only in case agree. */
  lemma MappedAnyCase(p: string, q: string)
    requires Lower(p) in Mappings && Lower(p) == Lower(q)
    ensures GetMappedTechName(p) == Mappings[Lower(p)]
    ensures GetMappedTechName(q) == GetMappedTechName(p)
    ensures GetMappedTechName(Lower(p)) == GetMappedTechName(p)
  {
    LowerFixed(p);
  }

  /** Any other name comes back unchanged, casing included. */
  lemma UnmappedUnchanged(p: string)
    requires Lower(p) !in Mappings
    ensures GetMappedTechName(p) == p
  {
  }

  /** Mapping a mapped name again changes nothing. */
  lemma GetMappedTechNameIdempotent(p: string)
    ensures GetMappedTechName(GetMappedTechName(p)) == GetMappedTechName(p)
  {
    if Lower(p) in Mappings {
      TableValuesFixed();
    }
  }

  /** A key, in any casing, finds its own value. */
  lemma KeyLookup(k: string)
    requires k in Mappings
    ensures GetMappedTechName(k) == Mappings[k]
  {
    KeysLowercase();
  }

  lemma RadixPrefix(k: string)
    requires StartsWith(k, "@radix-ui/")
    ensures IsRadixLike(k)
  {
    assert k[0] == k[..10][0] && k[1] == k[..10][1];
  }

  /** Every `@radix-ui/` key maps to `Radix UI`. */
  lemma RadixKeys(k: string)
    requires k in Mappings && StartsWith(k, "@radix-ui/")
    ensures Mappings[k] == "Radix UI" && GetMappedTechName(k) == "Radix UI"
  {
    RadixPrefix(k);
    TableKeys();
    KeyLookup(k);
  }

  /** `react-dom`, `@types/react` and `@types/react-dom` are React. */
  lemma ReactAliases(k: string)
    requires k == "react-dom" || k == "@types/react" || k == "@types/react-dom"
    ensures GetMappedTechName(k) == "React"
  {
    if k == "react-dom" {
      ReactDomEntry(k);
    } else {
      CheckingEntry(k, "React");
    }
    KeyLookup(k);
  }
  // The lemmas below establish the facts about the literal table that the
  // lemmas above use. The solver evaluates only a few string literals per
  // proof within its budget, so the facts are gathered key by key and value
  // by value and then combined part by part.

  lemma KeysShaped0()
    ensures IsKeyShaped("lucide-react") && !IsRadixLike("lucide-react") && IsKeyShaped("lucide") && !IsRadixLike("lucide") && IsKeyShaped("@radix-ui/react-alert-dialog") && IsKeyShaped("@radix-ui/react-avatar")
  {
  }

  lemma KeysShaped1()
    ensures IsKeyShaped("@radix-ui/react-dialog") && IsKeyShaped("@radix-ui/react-dropdown-menu") && IsKeyShaped("@radix-ui/react-icons") && IsKeyShaped("@radix-ui/react-label")
  {
  }

  lemma KeysShaped2()
    ensures IsKeyShaped("@radix-ui/react-navigation-menu") && IsKeyShaped("@radix-ui/react-popover") && IsKeyShaped("@radix-ui/react-select") && IsKeyShaped("@radix-ui/react-separator")
  {
  }

  lemma KeysShaped3()
    ensures IsKeyShaped("@radix-ui/react-slot") && IsKeyShaped("@radix-ui/react-tabs") && IsKeyShaped("react-dom") && !IsRadixLike("react-dom") && IsKeyShaped("react-router") && !IsRadixLike("react-router")
  {
  }

  lemma KeysShaped4()
    ensures IsKeyShaped("react-router-dom") && !IsRadixLike("react-router-dom") && IsKeyShaped("react-hook-form") && !IsRadixLike("react-hook-form") && IsKeyShaped("@testing-library/react") && !IsRadixLike("@testing-library/react") && IsKeyShaped("@testing-library/user-event") && !IsRadixLike("@testing-library/user-event")
  {
  }

  lemma KeysShaped5()
    ensures IsKeyShaped("@testing-library/jest-dom") && !IsRadixLike("@testing-library/jest-dom") && IsKeyShaped("next-intl") && !IsRadixLike("next-intl") && IsKeyShaped("next-themes") && !IsRadixLike("next-themes") && IsKeyShaped("next-auth") && !IsRadixLike("next-auth")
  {
  }

  lemma KeysShaped6()
    ensures IsKeyShaped("eslint-config-next") && !IsRadixLike("eslint-config-next") && IsKeyShaped("tailwind-merge") && !IsRadixLike("tailwind-merge") && IsKeyShaped("tailwind-scrollbar") && !IsRadixLike("tailwind-scrollbar") && IsKeyShaped("tailwind-variants") && !IsRadixLike("tailwind-variants")
  {
  }

  lemma KeysShaped7()
    ensures IsKeyShaped("tw-animate-css") && !IsRadixLike("tw-animate-css") && IsKeyShaped("@tailwindcss/postcss") && !IsRadixLike("@tailwindcss/postcss") && IsKeyShaped("class-variance-authority") && !IsRadixLike("class-variance-authority") && IsKeyShaped("@vitejs/plugin-react") && !IsRadixLike("@vitejs/plugin-react")
  {
  }

  lemma KeysShaped8()
    ensures IsKeyShaped("vite-tsconfig-paths") && !IsRadixLike("vite-tsconfig-paths") && IsKeyShaped("@vitest/coverage-v8") && !IsRadixLike("@vitest/coverage-v8") && IsKeyShaped("@vitest/ui") && !IsRadixLike("@vitest/ui") && IsKeyShaped("@playwright/test") && !IsRadixLike("@playwright/test")
  {
  }

  lemma KeysShaped9()
    ensures IsKeyShaped("jsdom") && !IsRadixLike("jsdom") && IsKeyShaped("@typescript-eslint/eslint-plugin") && !IsRadixLike("@typescript-eslint/eslint-plugin") && IsKeyShaped("@typescript-eslint/parser") && !IsRadixLike("@typescript-eslint/parser") && IsKeyShaped("@types/node") && !IsRadixLike("@types/node")
  {
  }

  lemma KeysShaped10()
    ensures IsKeyShaped("@types/react") && !IsRadixLike("@types/react") && IsKeyShaped("@types/react-dom") && !IsRadixLike("@types/react-dom") && IsKeyShaped("@eslint/eslintrc") && !IsRadixLike("@eslint/eslintrc") && IsKeyShaped("eslint-plugin-react") && !IsRadixLike("eslint-plugin-react")
  {
  }

  lemma KeysShaped11()
    ensures IsKeyShaped("eslint-plugin-react-hooks") && !IsRadixLike("eslint-plugin-react-hooks") && IsKeyShaped("eslint-plugin-jsx-a11y") && !IsRadixLike("eslint-plugin-jsx-a11y") && IsKeyShaped("@lhci/cli") && !IsRadixLike("@lhci/cli") && IsKeyShaped("lighthouse") && !IsRadixLike("lighthouse")
  {
  }

  lemma KeysShaped12()
    ensures IsKeyShaped("husky") && !IsRadixLike("husky") && IsKeyShaped("cross-env") && !IsRadixLike("cross-env") && IsKeyShaped("nyc") && !IsRadixLike("nyc") && IsKeyShaped("wait-on") && !IsRadixLike("wait-on")
  {
  }

  lemma KeysShaped13()
    ensures IsKeyShaped("@hookform/resolvers") && !IsRadixLike("@hookform/resolvers") && IsKeyShaped("@uploadthing/react") && !IsRadixLike("@uploadthing/react") && IsKeyShaped("uploadthing") && !IsRadixLike("uploadthing") && IsKeyShaped("clsx") && !IsRadixLike("clsx")
  {
  }

  lemma KeysShaped14()
    ensures IsKeyShaped("sonner") && !IsRadixLike("sonner") && IsKeyShaped("zod") && !IsRadixLike("zod") && IsKeyShaped("thirdweb") && !IsRadixLike("thirdweb")
  {
  }

  lemma UiLibrariesKeys()
    ensures KeyFacts(UiLibraries)
  {
    KeysShaped0();
    KeysShaped1();
    KeysShaped2();
    KeysShaped3();
  }

  lemma FrameworksKeys()
    ensures KeyFacts(Frameworks)
  {
    KeysShaped3();
    KeysShaped4();
    KeysShaped5();
    KeysShaped6();
  }

  lemma StylingAndBuildKeys()
    ensures KeyFacts(StylingAndBuild)
  {
    KeysShaped6();
    KeysShaped7();
    KeysShaped8();
  }

  lemma CheckingKeys()
    ensures KeyFacts(Checking)
  {
    KeysShaped8();
    KeysShaped9();
    KeysShaped10();
    KeysShaped11();
  }

  lemma UtilitiesKeys()
    ensures KeyFacts(Utilities)
  {
    KeysShaped11();
    KeysShaped12();
    KeysShaped13();
    KeysShaped14();
  }

  /** Keys present in both operands of a union keep the right operand's
      value, so the facts of the parts carry over to the table. */
  lemma KeyFactsUnion(a: map<string, string>, b: map<string, string>)
    requires KeyFacts(a) && KeyFacts(b)
    ensures KeyFacts(a + b)
  {
  }

  /** Every key of the table is key-shaped, and the keys starting with `@r`
      all map to `Radix UI`. */
  lemma TableKeys()
    ensures KeyFacts(Mappings)
  {
    UiLibrariesKeys();
    FrameworksKeys();
    KeyFactsUnion(UiLibraries, Frameworks);
    StylingAndBuildKeys();
    KeyFactsUnion(UiLibraries + Frameworks, StylingAndBuild);
    CheckingKeys();
    KeyFactsUnion(UiLibraries + Frameworks + StylingAndBuild, Checking);
    UtilitiesKeys();
    KeyFactsUnion(UiLibraries + Frameworks + StylingAndBuild + Checking, Utilities);
  }

  // Lookups of single keys. Each part is asked only about the keys that the
  // lookups below need, and each fact is proved in a lemma of its own.

  lemma NotInUiLibraries(k: string)
    requires k in ["react", "vite", "vitest", "playwright", "typescript", "eslint"]
    ensures k !in UiLibraries
  {
  }

  lemma NotInFrameworks(k: string)
    requires k in ["react", "vite", "vitest", "playwright", "typescript", "eslint", "lucide"]
    ensures k !in Frameworks
  {
  }

  lemma NotInStylingAndBuild(k: string)
    requires k in ["react", "vite", "vitest", "playwright", "typescript", "eslint", "lucide", "react-dom"]
    ensures k !in StylingAndBuild
  {
  }

  lemma NotInChecking(k: string)
    requires k in ["react", "vite", "vitest", "playwright", "typescript", "eslint", "lucide", "react-dom"]
    ensures k !in Checking
  {
  }

  lemma NotInUtilities(k: string)
    requires k in ["react", "vite", "vitest", "playwright", "typescript", "eslint", "lucide", "react-dom", "jsdom", "@types/react", "@types/react-dom"]
    ensures k !in Utilities
  {
  }

  /** The bare names of the major technologies are not keys: they reach the
      catalogue unchanged. */
  lemma UnmappedKeys(k: string)
    requires k in ["react", "vite", "vitest", "playwright", "typescript", "eslint"]
    ensures k !in Mappings
  {
    NotInUiLibraries(k);
    NotInFrameworks(k);
    NotInStylingAndBuild(k);
    NotInChecking(k);
    NotInUtilities(k);
  }

  lemma LucideInUiLibraries()
    ensures "lucide" in UiLibraries && UiLibraries["lucide"] == "Lucide"
  {
  }

  lemma LucideEntry(k: string)
    requires k == "lucide"
    ensures k in Mappings && Mappings[k] == "Lucide"
  {
    LucideInUiLibraries();
    NotInFrameworks(k);
    NotInStylingAndBuild(k);
    NotInChecking(k);
    NotInUtilities(k);
  }

  lemma ReactDomInFrameworks()
    ensures "react-dom" in Frameworks && Frameworks["react-dom"] == "React"
  {
  }

  lemma ReactDomEntry(k: string)
    requires k == "react-dom"
    ensures k in Mappings && Mappings[k] == "React"
  {
    ReactDomInFrameworks();
    NotInStylingAndBuild(k);
    NotInChecking(k);
    NotInUtilities(k);
  }

  lemma CheckingHas(k: string, v: string)
    requires (k, v) in [("jsdom", "jsdom"), ("@types/react", "React"), ("@types/react-dom", "React")]
    ensures k in Checking && Checking[k] == v
  {
  }

  lemma CheckingEntry(k: string, v: string)
    requires (k, v) in [("jsdom", "jsdom"), ("@types/react", "React"), ("@types/react-dom", "React")]
    ensures k in Mappings && Mappings[k] == v
  {
    CheckingHas(k, v);
    NotInUtilities(k);
  }

  lemma UtilitiesHas(k: string, v: string)
    requires (k, v) in [("lighthouse", "Lighthouse"), ("husky", "Husky"), ("cross-env", "cross-env"), ("nyc", "nyc"), ("wait-on", "wait-on"), ("uploadthing", "UploadThing"), ("clsx", "clsx"), ("sonner", "Sonner"), ("zod", "Zod"), ("thirdweb", "thirdweb")]
    ensures k in Utilities && Utilities[k] == v
  {
  }

  lemma UtilitiesEntry(k: string, v: string)
    requires (k, v) in [("lighthouse", "Lighthouse"), ("husky", "Husky"), ("cross-env", "cross-env"), ("nyc", "nyc"), ("wait-on", "wait-on"), ("uploadthing", "UploadThing"), ("clsx", "clsx"), ("sonner", "Sonner"), ("zod", "Zod"), ("thirdweb", "thirdweb")]
    ensures k in Mappings && Mappings[k] == v
  {
    UtilitiesHas(k, v);
  }

  lemma LowerOfLucide() ensures Lower("Lucide") == "lucide" { }

  lemma FixedLucide(v: string)
    requires v == "Lucide"
    ensures GetMappedTechName(v) == v
  {
    LowerOfLucide();
    LucideEntry("lucide");
    FixedVia(v, "lucide");
  }

  lemma FixedRadixUI(v: string)
    requires v == "Radix UI"
    ensures GetMappedTechName(v) == v
  {
    NotAKey(v, 5);
  }

  lemma LowerOfReact() ensures Lower("React") == "react" { }

  lemma FixedReact(v: string)
    requires v == "React"
    ensures GetMappedTechName(v) == v
  {
    LowerOfReact();
    UnmappedKeys("react");
    FixedAbsent(v, "react");
  }

  lemma FixedReactRouter(v: string)
    requires v == "React Router"
    ensures GetMappedTechName(v) == v
  {
    NotAKey(v, 5);
  }

  lemma FixedReactHookForm(v: string)
    requires v == "React Hook Form"
    ensures GetMappedTechName(v) == v
  {
    NotAKey(v, 5);
  }

  lemma FixedTestingLibrary(v: string)
    requires v == "Testing Library"
    ensures GetMappedTechName(v) == v
  {
    NotAKey(v, 7);
  }

  lemma FixedNextJs(v: string)
    requires v == "Next.js"
    ensures GetMappedTechName(v) == v
  {
    NotAKey(v, 4);
  }

  lemma FixedNextAuthJs(v: string)
    requires v == "NextAuth.js"
    ensures GetMappedTechName(v) == v
  {
    NotAKey(v, 8);
  }

  lemma FixedTailwindCSS(v: string)
    requires v == "Tailwind CSS"
    ensures GetMappedTechName(v) == v
  {
    NotAKey(v, 8);
  }

  lemma LowerOfVite() ensures Lower("Vite") == "vite" { }

  lemma FixedVite(v: string)
    requires v == "Vite"
    ensures GetMappedTechName(v) == v
  {
    LowerOfVite();
    UnmappedKeys("vite");
    FixedAbsent(v, "vite");
  }

  lemma LowerOfVitest() ensures Lower("Vitest") == "vitest" { }

  lemma FixedVitest(v: string)
    requires v == "Vitest"
    ensures GetMappedTechName(v) == v
  {
    LowerOfVitest();
    UnmappedKeys("vitest");
    FixedAbsent(v, "vitest");
  }

  lemma LowerOfPlaywright() ensures Lower("Playwright") == "playwright" { }

  lemma FixedPlaywright(v: string)
    requires v == "Playwright"
    ensures GetMappedTechName(v) == v
  {
    LowerOfPlaywright();
    UnmappedKeys("playwright");
    FixedAbsent(v, "playwright");
  }

  lemma LowerOfJsdom() ensures Lower("jsdom") == "jsdom" { }

  lemma FixedJsdom(v: string)
    requires v == "jsdom"
    ensures GetMappedTechName(v) == v
  {
    LowerOfJsdom();
    CheckingEntry("jsdom", v);
    FixedVia(v, "jsdom");
  }

  lemma LowerOfTypeScript() ensures Lower("TypeScript") == "typescript" { }

  lemma FixedTypeScript(v: string)
    requires v == "TypeScript"
    ensures GetMappedTechName(v) == v
  {
    LowerOfTypeScript();
    UnmappedKeys("typescript");
    FixedAbsent(v, "typescript");
  }

  lemma FixedNodeJs(v: string)
    requires v == "Node.js"
    ensures GetMappedTechName(v) == v
  {
    NotAKey(v, 4);
  }

  lemma LowerOfESLint() ensures Lower("ESLint") == "eslint" { }

  lemma FixedESLint(v: string)
    requires v == "ESLint"
    ensures GetMappedTechName(v) == v
  {
    LowerOfESLint();
    UnmappedKeys("eslint");
    FixedAbsent(v, "eslint");
  }

  lemma LowerOfLighthouse() ensures Lower("Lighthouse") == "lighthouse" { }

  lemma FixedLighthouse(v: string)
    requires v == "Lighthouse"
    ensures GetMappedTechName(v) == v
  {
    LowerOfLighthouse();
    UtilitiesEntry("lighthouse", v);
    FixedVia(v, "lighthouse");
  }

  lemma LowerOfHusky() ensures Lower("Husky") == "husky" { }

  lemma FixedHusky(v: string)
    requires v == "Husky"
    ensures GetMappedTechName(v) == v
  {
    LowerOfHusky();
    UtilitiesEntry("husky", v);
    FixedVia(v, "husky");
  }

  lemma LowerOfCrossEnv() ensures Lower("cross-env") == "cross-env" { }

  lemma FixedCrossEnv(v: string)
    requires v == "cross-env"
    ensures GetMappedTechName(v) == v
  {
    LowerOfCrossEnv();
    UtilitiesEntry("cross-env", v);
    FixedVia(v, "cross-env");
  }

  lemma LowerOfNyc() ensures Lower("nyc") == "nyc" { }

  lemma FixedNyc(v: string)
    requires v == "nyc"
    ensures GetMappedTechName(v) == v
  {
    LowerOfNyc();
    UtilitiesEntry("nyc", v);
    FixedVia(v, "nyc");
  }

  lemma LowerOfWaitOn() ensures Lower("wait-on") == "wait-on" { }

  lemma FixedWaitOn(v: string)
    requires v == "wait-on"
    ensures GetMappedTechName(v) == v
  {
    LowerOfWaitOn();
    UtilitiesEntry("wait-on", v);
    FixedVia(v, "wait-on");
  }

  lemma LowerOfUploadThing() ensures Lower("UploadThing") == "uploadthing" { }

  lemma FixedUploadThing(v: string)
    requires v == "UploadThing"
    ensures GetMappedTechName(v) == v
  {
    LowerOfUploadThing();
    UtilitiesEntry("uploadthing", v);
    FixedVia(v, "uploadthing");
  }

  lemma LowerOfClsx() ensures Lower("clsx") == "clsx" { }

  lemma FixedClsx(v: string)
    requires v == "clsx"
    ensures GetMappedTechName(v) == v
  {
    LowerOfClsx();
    UtilitiesEntry("clsx", v);
    FixedVia(v, "clsx");
  }

  lemma LowerOfSonner() ensures Lower("Sonner") == "sonner" { }

  lemma FixedSonner(v: string)
    requires v == "Sonner"
    ensures GetMappedTechName(v) == v
  {
    LowerOfSonner();
    UtilitiesEntry("sonner", v);
    FixedVia(v, "sonner");
  }

  lemma LowerOfZod() ensures Lower("Zod") == "zod" { }

  lemma FixedZod(v: string)
    requires v == "Zod"
    ensures GetMappedTechName(v) == v
  {
    LowerOfZod();
    UtilitiesEntry("zod", v);
    FixedVia(v, "zod");
  }

  lemma LowerOfThirdweb() ensures Lower("thirdweb") == "thirdweb" { }

  lemma FixedThirdweb(v: string)
    requires v == "thirdweb"
    ensures GetMappedTechName(v) == v
  {
    LowerOfThirdweb();
    UtilitiesEntry("thirdweb", v);
    FixedVia(v, "thirdweb");
  }

  lemma UiLibrariesValues()
    ensures ValuesIn(UiLibraries, {"Lucide", "Radix UI"})
  {
  }

  lemma UiLibrariesValuesFixed0()
    ensures AllFixed({"Lucide", "Radix UI"})
  {
    forall v | v in {"Lucide", "Radix UI"} ensures GetMappedTechName(v) == v {
      if v == "Lucide" {
        FixedLucide(v);
      } else {
        FixedRadixUI(v);
      }
    }
  }

  lemma UiLibrariesValuesFixed()
    ensures ValuesFixed(UiLibraries)
  {
    UiLibrariesValues();
    UiLibrariesValuesFixed0();
    FixedValues(UiLibraries, {"Lucide", "Radix UI"});
  }

  lemma FrameworksValues()
    ensures ValuesIn(Frameworks, {"React", "React Router"} + {"React Hook Form", "Testing Library"} + {"Next.js", "NextAuth.js"})
  {
  }

  lemma FrameworksValuesFixed0()
    ensures AllFixed({"React", "React Router"})
  {
    forall v | v in {"React", "React Router"} ensures GetMappedTechName(v) == v {
      if v == "React" {
        FixedReact(v);
      } else {
        FixedReactRouter(v);
      }
    }
  }

  lemma FrameworksValuesFixed1()
    ensures AllFixed({"React Hook Form", "Testing Library"})
  {
    forall v | v in {"React Hook Form", "Testing Library"} ensures GetMappedTechName(v) == v {
      if v == "React Hook Form" {
        FixedReactHookForm(v);
      } else {
        FixedTestingLibrary(v);
      }
    }
  }

  lemma FrameworksValuesFixed2()
    ensures AllFixed({"Next.js", "NextAuth.js"})
  {
    forall v | v in {"Next.js", "NextAuth.js"} ensures GetMappedTechName(v) == v {
      if v == "Next.js" {
        FixedNextJs(v);
      } else {
        FixedNextAuthJs(v);
      }
    }
  }

  lemma FrameworksValuesFixed()
    ensures ValuesFixed(Frameworks)
  {
    FrameworksValues();
    FrameworksValuesFixed0();
    FrameworksValuesFixed1();
    AllFixedUnion({"React", "React Router"}, {"React Hook Form", "Testing Library"});
    FrameworksValuesFixed2();
    AllFixedUnion({"React", "React Router"} + {"React Hook Form", "Testing Library"}, {"Next.js", "NextAuth.js"});
    FixedValues(Frameworks, {"React", "React Router"} + {"React Hook Form", "Testing Library"} + {"Next.js", "NextAuth.js"});
  }

  lemma StylingAndBuildValues()
    ensures ValuesIn(StylingAndBuild, {"Tailwind CSS", "Vite"})
  {
  }

  lemma StylingAndBuildValuesFixed0()
    ensures AllFixed({"Tailwind CSS", "Vite"})
  {
    forall v | v in {"Tailwind CSS", "Vite"} ensures GetMappedTechName(v) == v {
      if v == "Tailwind CSS" {
        FixedTailwindCSS(v);
      } else {
        FixedVite(v);
      }
    }
  }

  lemma StylingAndBuildValuesFixed()
    ensures ValuesFixed(StylingAndBuild)
  {
    StylingAndBuildValues();
    StylingAndBuildValuesFixed0();
    FixedValues(StylingAndBuild, {"Tailwind CSS", "Vite"});
  }

  lemma CheckingValues()
    ensures ValuesIn(Checking, {"Vitest", "Playwright"} + {"jsdom", "TypeScript"} + {"Node.js", "React"} + {"ESLint"})
  {
  }

  lemma CheckingValuesFixed0()
    ensures AllFixed({"Vitest", "Playwright"})
  {
    forall v | v in {"Vitest", "Playwright"} ensures GetMappedTechName(v) == v {
      if v == "Vitest" {
        FixedVitest(v);
      } else {
        FixedPlaywright(v);
      }
    }
  }

  lemma CheckingValuesFixed1()
    ensures AllFixed({"jsdom", "TypeScript"})
  {
    forall v | v in {"jsdom", "TypeScript"} ensures GetMappedTechName(v) == v {
      if v == "jsdom" {
        FixedJsdom(v);
      } else {
        FixedTypeScript(v);
      }
    }
  }

  lemma CheckingValuesFixed2()
    ensures AllFixed({"Node.js", "React"})
  {
    forall v | v in {"Node.js", "React"} ensures GetMappedTechName(v) == v {
      if v == "Node.js" {
        FixedNodeJs(v);
      } else {
        FixedReact(v);
      }
    }
  }

  lemma CheckingValuesFixed3()
    ensures AllFixed({"ESLint"})
  {
    forall v | v in {"ESLint"} ensures GetMappedTechName(v) == v {
      FixedESLint(v);
    }
  }

  lemma CheckingValuesFixed()
    ensures ValuesFixed(Checking)
  {
    CheckingValues();
    CheckingValuesFixed0();
    CheckingValuesFixed1();
    AllFixedUnion({"Vitest", "Playwright"}, {"jsdom", "TypeScript"});
    CheckingValuesFixed2();
    AllFixedUnion({"Vitest", "Playwright"} + {"jsdom", "TypeScript"}, {"Node.js", "React"});
    CheckingValuesFixed3();
    AllFixedUnion({"Vitest", "Playwright"} + {"jsdom", "TypeScript"} + {"Node.js", "React"}, {"ESLint"});
    FixedValues(Checking, {"Vitest", "Playwright"} + {"jsdom", "TypeScript"} + {"Node.js", "React"} + {"ESLint"});
  }

  lemma UtilitiesValues()
    ensures ValuesIn(Utilities, {"Lighthouse", "Husky"} + {"cross-env", "nyc"} + {"wait-on", "React Hook Form"} + {"UploadThing", "clsx"} + {"Sonner", "Zod"} + {"thirdweb"})
  {
  }

  lemma UtilitiesValuesFixed0()
    ensures AllFixed({"Lighthouse", "Husky"})
  {
    forall v | v in {"Lighthouse", "Husky"} ensures GetMappedTechName(v) == v {
      if v == "Lighthouse" {
        FixedLighthouse(v);
      } else {
        FixedHusky(v);
      }
    }
  }

  lemma UtilitiesValuesFixed1()
    ensures AllFixed({"cross-env", "nyc"})
  {
    forall v | v in {"cross-env", "nyc"} ensures GetMappedTechName(v) == v {
      if v == "cross-env" {
        FixedCrossEnv(v);
      } else {
        FixedNyc(v);
      }
    }
  }

  lemma UtilitiesValuesFixed2()
    ensures AllFixed({"wait-on", "React Hook Form"})
  {
    forall v | v in {"wait-on", "React Hook Form"} ensures GetMappedTechName(v) == v {
      if v == "wait-on" {
        FixedWaitOn(v);
      } else {
        FixedReactHookForm(v);
      }
    }
  }

  lemma UtilitiesValuesFixed3()
    ensures AllFixed({"UploadThing", "clsx"})
  {
    forall v | v in {"UploadThing", "clsx"} ensures GetMappedTechName(v) == v {
      if v == "UploadThing" {
        FixedUploadThing(v);
      } else {
        FixedClsx(v);
      }
    }
  }

  lemma UtilitiesValuesFixed4()
    ensures AllFixed({"Sonner", "Zod"})
  {
    forall v | v in {"Sonner", "Zod"} ensures GetMappedTechName(v) == v {
      if v == "Sonner" {
        FixedSonner(v);
      } else {
        FixedZod(v);
      }
    }
  }

  lemma UtilitiesValuesFixed5()
    ensures AllFixed({"thirdweb"})
  {
    forall v | v in {"thirdweb"} ensures GetMappedTechName(v) == v {
      FixedThirdweb(v);
    }
  }

  lemma UtilitiesValuesFixed()
    ensures ValuesFixed(Utilities)
  {
    UtilitiesValues();
    UtilitiesValuesFixed0();
    UtilitiesValuesFixed1();
    AllFixedUnion({"Lighthouse", "Husky"}, {"cross-env", "nyc"});
    UtilitiesValuesFixed2();
    AllFixedUnion({"Lighthouse", "Husky"} + {"cross-env", "nyc"}, {"wait-on", "React Hook Form"});
    UtilitiesValuesFixed3();
    AllFixedUnion({"Lighthouse", "Husky"} + {"cross-env", "nyc"} + {"wait-on", "React Hook Form"}, {"UploadThing", "clsx"});
    UtilitiesValuesFixed4();
    AllFixedUnion({"Lighthouse", "Husky"} + {"cross-env", "nyc"} + {"wait-on", "React Hook Form"} + {"UploadThing", "clsx"}, {"Sonner", "Zod"});
    UtilitiesValuesFixed5();
    AllFixedUnion({"Lighthouse", "Husky"} + {"cross-env", "nyc"} + {"wait-on", "React Hook Form"} + {"UploadThing", "clsx"} + {"Sonner", "Zod"}, {"thirdweb"});
    FixedValues(Utilities, {"Lighthouse", "Husky"} + {"cross-env", "nyc"} + {"wait-on", "React Hook Form"} + {"UploadThing", "clsx"} + {"Sonner", "Zod"} + {"thirdweb"});
  }

  /** Every value of the table is a fixed point of the lookup. */
  lemma TableValuesFixed()
    ensures ValuesFixed(Mappings)
  {
    UiLibrariesValuesFixed();
    FrameworksValuesFixed();
    UnionValuesFixed(UiLibraries, Frameworks);
    StylingAndBuildValuesFixed();
    UnionValuesFixed(UiLibraries + Frameworks, StylingAndBuild);
    CheckingValuesFixed();
    UnionValuesFixed(UiLibraries + Frameworks + StylingAndBuild, Checking);
    UtilitiesValuesFixed();
    UnionValuesFixed(UiLibraries + Frameworks + StylingAndBuild + Checking, Utilities);
  }

}

/**
 * Placeholder interpolation (aix-cli/src/utils/interpolation.rs).
 *
 * `interpolate_content` rewrites every match of `\{\{\s*(\w+)\s*\}\}`,
 * left to right and without overlap: a key present in the variable map
 * becomes its value, any other key becomes the canonical text `{{ key }}`.
 * `replace_template_vars_all` applies it to every file below a directory,
 * skipping excluded names, and lists the files it rewrote.
 */
module Interpolation {
  import opened Wrappers
  import opened Errors
  import opened Tree
  import opened Fs

  /** The key/value map the files are interpolated with. */
  type Vars = map<string, string>

  // ---------------------------------------------------------------------
  // Character classes and placeholders
  // ---------------------------------------------------------------------

  /** The regex class `\w`, restricted to ASCII: letters, digits and `_`. */
  predicate IsWordChar(c: char) {
    ('a' <= c <= 'z') || ('A' <= c <= 'Z') || ('0' <= c <= '9') || c == '_'
  }

  /** The regex class `\s`, restricted to ASCII: space, tab, line feed, vertical tab, form feed, carriage return. */
  predicate IsSpaceChar(c: char) {
    c == ' ' || c == '\t' || c == '\n' || c == '\r' || c as int == 11 || c as int == 12
  }

  /** The two runs the placeholder pattern is built from. */
  datatype CharClass = Space | Word

  predicate InClass(k: CharClass, c: char) {
    match k
    case Space => IsSpaceChar(c)
    case Word => IsWordChar(c)
  }

  predicate AllIn(k: CharClass, s: string) {
    forall i :: 0 <= i < |s| ==> InClass(k, s[i])
  }

  /** One occurrence of the placeholder pattern: `{{`, `lead`, `key`, `trail`, `}}`. */
  datatype Match = Match(lead: string, key: string, trail: string) {

    /** `lead` and `trail` are runs of `\s`, `key` a non-empty run of `\w`. */
    predicate Valid() {
      AllIn(Space, lead) && |key| > 0 && AllIn(Word, key) && AllIn(Space, trail)
    }

    /** The matched text after its opening `{{`. */
    function Body(): string {
      lead + (key + (trail + "}}"))
    }

    /** The matched text. */
    function Text(): string {
      "{{" + Body()
    }
  }

  /** The text contains no `{{`. */
  predicate NoOpen(s: string) {
    forall i :: 0 <= i < |s| - 1 ==> !(s[i] == '{' && s[i + 1] == '{')
  }

  predicate StartsWithOpen(s: string) {
    |s| >= 2 && s[0] == '{' && s[1] == '{'
  }

  predicate StartsWithClose(s: string) {
    |s| >= 2 && s[0] == '}' && s[1] == '}'
  }

  // Small facts about concatenation the scanner proofs are staged through.

  lemma PrefixSplit(x: string, s: string)
    requires x <= s
    ensures s == x + s[|x|..]
  {
  }

  lemma PrefixAfter(a: string, x: string, y: string)
    requires x <= y
    ensures a + x <= a + y
  {
  }

  lemma Assoc(a: string, b: string, c: string)
    ensures a + b + c == a + (b + c)
  {
  }

  lemma Drop(x: string, y: string)
    ensures (x + y)[|x|..] == y
  {
  }

  /** The longest prefix of `s` whose characters are all in class `k`. */
  function TakeWhile(k: CharClass, s: string): (r: string)
    ensures r <= s && AllIn(k, r)
    ensures |r| < |s| ==> !InClass(k, s[|r|])
  {
    if s != [] && InClass(k, s[0]) then [s[0]] + TakeWhile(k, s[1..]) else []
  }

  /**
   * The placeholder whose text after `{{` starts `u`, if any.  `\s` and `\w`
   * are disjoint and contain neither brace, so each run can be taken
   * greedily: a shorter run would leave a character the next part of the
   * pattern cannot accept.
   */
  function MatchBody(u: string): (m: Option<Match>)
    ensures m.Some? ==> m.value.Valid() && m.value.Body() <= u
  {
    var lead := TakeWhile(Space, u);
    PrefixSplit(lead, u);
    var m := MatchKey(lead, u[|lead|..]);
    if m.Some? then
      PrefixAfter(lead, m.value.key + (m.value.trail + "}}"), u[|lead|..]);
      m
    else m
  }

  /** The rest of the pattern once the leading run `lead` has been taken and `u1` follows it. */
  function MatchKey(lead: string, u1: string): (m: Option<Match>)
    requires AllIn(Space, lead)
    ensures m.Some? ==> m.value.Valid() && m.value.lead == lead && m.value.key + (m.value.trail + "}}") <= u1
  {
    var key := TakeWhile(Word, u1);
    PrefixSplit(key, u1);
    var m := MatchTrail(lead, key, u1[|key|..]);
    if m.Some? then
      PrefixAfter(key, m.value.trail + "}}", u1[|key|..]);
      m
    else m
  }

  /** The end of the pattern once `lead` and `key` have been taken and `u2` follows them. */
  function MatchTrail(lead: string, key: string, u2: string): (m: Option<Match>)
    requires AllIn(Space, lead) && AllIn(Word, key)
    ensures m.Some? ==> m.value.Valid() && m.value.lead == lead && m.value.key == key && m.value.trail + "}}" <= u2
  {
    var trail := TakeWhile(Space, u2);
    var u3 := u2[|trail|..];
    if key != [] && StartsWithClose(u3) then
      PrefixSplit(trail, u2);
      PrefixAfter(trail, "}}", u3);
      Some(Match(lead, key, trail))
    else None
  }

  /** The placeholder `s` starts with, if any: the pattern anchored at the start of `s`. */
  function MatchPrefix(s: string): (m: Option<Match>)
    ensures m.Some? ==> m.value.Valid() && m.value.Text() <= s && StartsWithOpen(s)
  {
    if StartsWithOpen(s) then
      var m := MatchBody(s[2..]);
      if m.Some? then
        OpenPrefix(s, m.value);
        m
      else m
    else None
  }

  /** A placeholder body found after the `{{` that `s` starts with makes the whole placeholder a prefix of `s`. */
  lemma OpenPrefix(s: string, m: Match)
    requires StartsWithOpen(s) && m.Body() <= s[2..]
    ensures m.Text() <= s
  {
    assert s == "{{" + s[2..];
    PrefixAfter("{{", m.Body(), s[2..]);
  }

  /** What a matched key is rewritten to. */
  function Replacement(key: string, vars: Vars): string {
    if key in vars then vars[key] else "{{ " + key + " }}"
  }

  /** How many characters one scanning step at the start of `s` consumes: a whole placeholder, or one character. */
  function StepLength(s: string): (n: nat)
    requires s != []
    ensures 1 <= n <= |s|
  {
    match MatchPrefix(s)
    case Some(m) => |m.Text()|
    case None => 1
  }

  /** What one scanning step at the start of `s` emits: a replacement, or the character copied. */
  function StepOutput(s: string, vars: Vars): string
    requires s != []
  {
    match MatchPrefix(s)
    case Some(m) => Replacement(m.key, vars)
    case None => [s[0]]
  }

  /**
   * `interpolate_content(s, vars)`: scan left to right; at a position where
   * a placeholder starts emit its replacement and continue after it,
   * otherwise copy one character.
   */
  function Interpolate(s: string, vars: Vars): (r: string)
    ensures NoOpen(s) ==> r == s
    decreases |s|
  {
    if s == [] then []
    else
      assert NoOpen(s) ==> StepLength(s) == 1 && StepOutput(s, vars) == [s[0]] && NoOpen(s[1..]);
      StepOutput(s, vars) + Interpolate(s[StepLength(s)..], vars)
  }

  // ---------------------------------------------------------------------
  // The scanner finds exactly the placeholders
  // ---------------------------------------------------------------------

  /** A run of class `k` followed by a character outside `k` is taken exactly. */
  lemma {:induction false} TakeWhileStops(k: CharClass, x: string, y: string)
    requires AllIn(k, x)
    requires y == [] || !InClass(k, y[0])
    ensures TakeWhile(k, x + y) == x
  {
    if x != [] {
      assert (x + y)[1..] == x[1..] + y;
      TakeWhileStops(k, x[1..], y);
    } else {
      assert x + y == y;
    }
  }

  lemma MatchTrailComplete(m: Match, rest: string)
    requires m.Valid()
    ensures MatchTrail(m.lead, m.key, m.trail + ("}}" + rest)) == Some(m)
  {
    TakeWhileStops(Space, m.trail, "}}" + rest);
    Drop(m.trail, "}}" + rest);
  }

  lemma MatchKeyComplete(m: Match, rest: string)
    requires m.Valid()
    ensures MatchKey(m.lead, m.key + (m.trail + ("}}" + rest))) == Some(m)
  {
    var u2 := m.trail + ("}}" + rest);
    assert u2[0] == '}' || IsSpaceChar(u2[0]);
    TakeWhileStops(Word, m.key, u2);
    Drop(m.key, u2);
    MatchTrailComplete(m, rest);
  }

  lemma MatchBodyComplete(m: Match, rest: string)
    requires m.Valid()
    ensures MatchBody(m.Body() + rest) == Some(m)
  {
    var u1 := m.key + (m.trail + ("}}" + rest));
    Assoc(m.trail, "}}", rest);
    Assoc(m.key, m.trail + "}}", rest);
    Assoc(m.lead, m.key + (m.trail + "}}"), rest);
    assert IsWordChar(u1[0]);
    TakeWhileStops(Space, m.lead, u1);
    Drop(m.lead, u1);
    MatchKeyComplete(m, rest);
  }

  /**
   * Every placeholder text is found by the scanner, with the same parts:
   * together with the contract of `MatchPrefix`, a prefix of `s` is a
   * placeholder exactly when `MatchPrefix` reports it, and no other split
   * of the same text is a placeholder.
   */
  lemma MatchPrefixComplete(m: Match, rest: string)
    requires m.Valid()
    ensures MatchPrefix(m.Text() + rest) == Some(m)
  {
    Assoc("{{", m.Body(), rest);
    Drop("{{", m.Body() + rest);
    MatchBodyComplete(m, rest);
  }

  /** Two placeholders at the same position are the same placeholder. */
  lemma MatchUnique(m1: Match, r1: string, m2: Match, r2: string)
    requires m1.Valid() && m2.Valid()
    requires m1.Text() + r1 == m2.Text() + r2
    ensures m1 == m2
  {
    MatchPrefixComplete(m1, r1);
    MatchPrefixComplete(m2, r2);
  }

  /** Past its opening `{{`, a placeholder contains no `{`. */
  lemma MatchHasNoInnerBrace(m: Match)
    requires m.Valid()
    ensures forall i :: 2 <= i < |m.Text()| ==> m.Text()[i] != '{'
  {
    var t := m.Text();
    forall i | 2 <= i < |t|
      ensures t[i] != '{'
    {
      var a := 2 + |m.lead|;
      var b := a + |m.key|;
      var c := b + |m.trail|;
      if i < a {
        assert t[i] == m.lead[i - 2];
      } else if i < b {
        assert t[i] == m.key[i - a];
      } else if i < c {
        assert t[i] == m.trail[i - b];
      }
    }
  }

  /** Any placeholder text at the start of `s` is what the scanner reports. */
  lemma MatchPrefixAt(m: Match, s: string)
    requires m.Valid() && m.Text() <= s
    ensures MatchPrefix(s) == Some(m)
  {
    PrefixSplit(m.Text(), s);
    MatchPrefixComplete(m, s[|m.Text()|..]);
  }

  /** A placeholder that is a prefix of `pre + t`, where `t` starts with `{{`, ends within `pre`. */
  lemma MatchEndsBeforeOpen(m: Match, pre: string, t: string)
    requires m.Valid() && pre != [] && StartsWithOpen(t)
    requires m.Text() <= pre + t
    ensures |m.Text()| <= |pre|
  {
    MatchHasNoInnerBrace(m);
    if |m.Text()| > |pre| {
      var k := if |pre| >= 2 then |pre| else 2;
      PrefixIndex(m.Text(), pre + t, k);
      assert false;
    }
  }

  /**
   * When `t` starts with `{{`, no placeholder can begin in `pre` and end in
   * `t`: the scanner sees the same thing at the start of `pre + t` as at the
   * start of `pre`.
   */
  lemma MatchPrefixBeforeOpen(pre: string, t: string)
    requires pre != [] && StartsWithOpen(t)
    ensures MatchPrefix(pre + t) == MatchPrefix(pre)
    ensures MatchPrefix(pre).Some? ==> |MatchPrefix(pre).value.Text()| <= |pre|
  {
    var ms := MatchPrefix(pre + t);
    var mp := MatchPrefix(pre);
    if ms.Some? {
      MatchEndsBeforeOpen(ms.value, pre, t);
      PrefixShorter(ms.value.Text(), pre, t);
      MatchPrefixAt(ms.value, pre);
    } else if mp.Some? {
      PrefixLonger(mp.value.Text(), pre, t);
      MatchPrefixAt(mp.value, pre + t);
    }
  }
  /** Consequently one scanning step over `pre + t` consumes and emits what it does over `pre`. */
  lemma StepBeforeOpen(pre: string, t: string, vars: Vars)
    requires pre != [] && StartsWithOpen(t)
    ensures StepLength(pre + t) == StepLength(pre) <= |pre|
    ensures StepOutput(pre + t, vars) == StepOutput(pre, vars)
  {
    MatchPrefixBeforeOpen(pre, t);
  }


  lemma PrefixIndex(x: string, s: string, k: nat)
    requires x <= s && k < |x|
    ensures x[k] == s[k]
  {
  }

  lemma PrefixShorter(x: string, a: string, b: string)
    requires x <= a + b && |x| <= |a|
    ensures x <= a
  {
    assert x == (a + b)[..|x|] == a[..|x|];
  }

  lemma PrefixLonger(x: string, a: string, b: string)
    requires x <= a
    ensures x <= a + b
  {
    assert (a + b)[..|x|] == a[..|x|];
  }

  // ---------------------------------------------------------------------
  // Properties of interpolation
  // ---------------------------------------------------------------------

  /** A placeholder at the front is replaced whole; scanning resumes right after it. */
  lemma InterpolateMatch(m: Match, rest: string, vars: Vars)
    requires m.Valid()
    ensures Interpolate(m.Text() + rest, vars) == Replacement(m.key, vars) + Interpolate(rest, vars)
  {
    MatchPrefixComplete(m, rest);
    assert (m.Text() + rest)[|m.Text()|..] == rest;
  }

  lemma InterpolateUnfold(s: string, vars: Vars)
    requires s != []
    ensures Interpolate(s, vars) == StepOutput(s, vars) + Interpolate(s[StepLength(s)..], vars)
  {
  }

  /** One step of interpolation on `pre + t` is the step on `pre` alone. */
  lemma InterpolateStepBeforeOpen(pre: string, t: string, vars: Vars)
    requires pre != [] && StartsWithOpen(t)
    ensures Interpolate(pre + t, vars) == StepOutput(pre, vars) + Interpolate(pre[StepLength(pre)..] + t, vars)
  {
    StepBeforeOpen(pre, t, vars);
    assert (pre + t)[StepLength(pre)..] == pre[StepLength(pre)..] + t;
  }

  /** The inductive step of `InterpolateSplit`: a split after the first step gives the split before it. */
  lemma InterpolateSplitStep(pre: string, t: string, vars: Vars)
    requires pre != [] && StartsWithOpen(t)
    requires Interpolate(pre[StepLength(pre)..] + t, vars) == Interpolate(pre[StepLength(pre)..], vars) + Interpolate(t, vars)
    ensures Interpolate(pre + t, vars) == Interpolate(pre, vars) + Interpolate(t, vars)
  {
    InterpolateUnfold(pre, vars);
    InterpolateStepBeforeOpen(pre, t, vars);
    Assoc(StepOutput(pre, vars), Interpolate(pre[StepLength(pre)..], vars), Interpolate(t, vars));
  }

  /**
   * Interpolation splits at every `{{`: text before it is rewritten on its
   * own, and nothing matched before it reaches past it.
   */
  lemma {:induction false} InterpolateSplit(pre: string, t: string, vars: Vars)
    requires StartsWithOpen(t)
    ensures Interpolate(pre + t, vars) == Interpolate(pre, vars) + Interpolate(t, vars)
    decreases |pre|
  {
    if pre == [] {
      assert pre + t == t;
    } else {
      InterpolateSplit(pre[StepLength(pre)..], t, vars);
      InterpolateSplitStep(pre, t, vars);
    }
  }

  /**
   * A placeholder anywhere in the text is replaced whole by its replacement;
   * the text around it is rewritten independently of it.
   */
  lemma InterpolateInContext(pre: string, m: Match, post: string, vars: Vars)
    requires m.Valid()
    ensures Interpolate(pre + m.Text() + post, vars)
         == Interpolate(pre, vars) + Replacement(m.key, vars) + Interpolate(post, vars)
  {
    var t := m.Text() + post;
    assert pre + m.Text() + post == pre + t;
    assert StartsWithOpen(t) by {
      assert t[..2] == m.Text()[..2] == "{{";
    }
    InterpolateSplit(pre, t, vars);
    InterpolateMatch(m, post, vars);
    Assoc(Interpolate(pre, vars), Replacement(m.key, vars), Interpolate(post, vars));
  }

  /** Text without any `{{` and one known placeholder: the placeholder becomes the value verbatim. */
  lemma KnownKeyReplaced(pre: string, m: Match, post: string, vars: Vars)
    requires m.Valid() && m.key in vars && NoOpen(pre) && NoOpen(post)
    ensures Interpolate(pre + m.Text() + post, vars) == pre + vars[m.key] + post
  {
    InterpolateInContext(pre, m, post, vars);
  }

  /** The whitespace inside the braces never changes the output, wherever the placeholder stands. */
  lemma WhitespaceIrrelevant(pre: string, m1: Match, m2: Match, post: string, vars: Vars)
    requires m1.Valid() && m2.Valid() && m1.key == m2.key
    ensures Interpolate(pre + m1.Text() + post, vars) == Interpolate(pre + m2.Text() + post, vars)
  {
    InterpolateInContext(pre, m1, post, vars);
    InterpolateInContext(pre, m2, post, vars);
  }

  /** An unknown key is written back as exactly `{{ key }}`, whatever spacing it had. */
  lemma UnknownKeyCanonical(pre: string, m: Match, post: string, vars: Vars)
    requires m.Valid() && m.key !in vars
    ensures Interpolate(pre + m.Text() + post, vars)
         == Interpolate(pre, vars) + ("{{ " + m.key + " }}") + Interpolate(post, vars)
  {
    InterpolateInContext(pre, m, post, vars);
  }

  /** Between text without `{{`, the canonical text of an unknown key is a fixed point of rewriting. */
  lemma CanonicalUnknownSurvives(pre: string, key: string, post: string, vars: Vars)
    requires |key| > 0 && AllIn(Word, key) && key !in vars
    requires NoOpen(pre) && NoOpen(post)
    ensures Interpolate(pre + ("{{ " + key + " }}") + post, vars) == pre + ("{{ " + key + " }}") + post
  {
    var m := Match(" ", key, " ");
    assert m.Text() == "{{ " + key + " }}";
    UnknownKeyCanonical(pre, m, post, vars);
  }

  /** The example from the tests: with `name` bound, `Hello {{ name }}!` reads `Hello ` + value + `!`. */
  lemma HelloName(value: string)
    ensures Interpolate("Hello {{ name }}!", map["name" := value]) == "Hello " + value + "!"
  {
    var m := Match(" ", "name", " ");
    assert "Hello {{ name }}!" == "Hello " + m.Text() + "!";
    KnownKeyReplaced("Hello ", m, "!", map["name" := value]);
  }

  /** The same example with no bindings comes back unchanged, since its spacing is already canonical. */
  lemma HelloNameUnbound()
    ensures Interpolate("Hello {{ name }}!", map[]) == "Hello {{ name }}!"
  {
    assert "Hello {{ name }}!" == "Hello " + ("{{ " + "name" + " }}") + "!";
    assert NoOpen("Hello ") && NoOpen("!") && AllIn(Word, "name");
    CanonicalUnknownSurvives("Hello ", "name", "!", map[]);
  }


  /**
   * An unbound key written without spaces does not come back unchanged: it
   * is normalised to `{{ key }}`.
   */
  lemma UnknownKeyNormalised(key: string, vars: Vars)
    requires |key| > 0 && AllIn(Word, key) && key !in vars
    ensures Interpolate("{{" + key + "}}", vars) == "{{ " + key + " }}"
    ensures Interpolate("{{" + key + "}}", vars) != "{{" + key + "}}"
  {
    var m := Match("", key, "");
    assert "{{" + key + "}}" == m.Text() + [];
    InterpolateMatch(m, [], vars);
    assert |"{{ " + key + " }}"| == |key| + 6 != |"{{" + key + "}}"|;
  }

  /**
   * A value that is itself the text of a placeholder `v` is inserted
   * verbatim in one pass, while a second pass would replace `v` in turn:
   * values are never rescanned.
   */
  lemma ValuesNotRescanned(pre: string, m: Match, v: Match, post: string, vars: Vars)
    requires m.Valid() && v.Valid() && m.key in vars && vars[m.key] == v.Text() && v.key in vars
    requires NoOpen(pre) && NoOpen(post)
    ensures Interpolate(pre + m.Text() + post, vars) == pre + v.Text() + post
    ensures Interpolate(v.Text(), vars) == vars[v.key]
  {
    KnownKeyReplaced(pre, m, post, vars);
    assert v.Text() == v.Text() + [];
    InterpolateMatch(v, [], vars);
  }

  /** The case of the above with `{{a}}`, `a` bound to `{{ b }}` and `b` to `x`. */
  lemma ValuesNotRescannedExample()
    ensures Interpolate("{{a}}", map["a" := "{{ b }}", "b" := "x"]) == "{{ b }}"
    ensures Interpolate("{{ b }}", map["a" := "{{ b }}", "b" := "x"]) == "x"
  {
    var m := Match("", "a", "");
    var v := Match(" ", "b", " ");
    assert "{{a}}" == [] + m.Text() + [];
    assert "{{ b }}" == v.Text() == [] + v.Text() + [];
    assert NoOpen([]) && AllIn(Word, "a") && AllIn(Word, "b");
    ValuesNotRescanned([], m, v, [], map["a" := "{{ b }}", "b" := "x"]);
  }

  // ---------------------------------------------------------------------
  // replace_template_vars_all
  // ---------------------------------------------------------------------

  /**
   * `path.ends_with(ex)` for a path ending in `name` and an exclusion `ex`
   * naming one component: true when `ex` is that name, and also when `ex` is
   * empty (an empty path is a suffix of every path).
   */
  predicate Excluded(name: string, exclude: seq<string>) {
    "" in exclude || name in exclude
  }

  /** The components of an exclusion taken as one path name: none for the empty name. */
  function ComponentsOf(ex: string): (r: Path)
    ensures |r| <= 1
  {
    if ex == "" then [] else [ex]
  }

  /** `Path::ends_with`: the last components of `p` are exactly `q`. */
  predicate EndsWith(p: Path, q: Path) {
    |q| <= |p| && p[|p| - |q|..] == q
  }

  /**
   * `Excluded` is the walk's test `exclude.iter().any(|ex| path.ends_with(ex))`
   * for the entry `name` of the directory `dir`, with every exclusion a
   * single component or empty.
   */
  lemma ExcludedMeansEndsWith(dir: Path, name: string, exclude: seq<string>)
    ensures Excluded(name, exclude)
        <==> exists i :: 0 <= i < |exclude| && EndsWith(dir + [name], ComponentsOf(exclude[i]))
  {
    var p := dir + [name];
    if Excluded(name, exclude) {
      var i :| 0 <= i < |exclude| && (exclude[i] == "" || exclude[i] == name);
      assert p[|p| - |ComponentsOf(exclude[i])|..] == ComponentsOf(exclude[i]);
    }
    forall i | 0 <= i < |exclude| && EndsWith(p, ComponentsOf(exclude[i]))
      ensures exclude[i] == "" || exclude[i] == name
    {
      if exclude[i] != "" {
        assert p[|p| - 1..] == [exclude[i]];
        assert p[|p| - 1] == name;
      }
    }
  }

  datatype Walked = Walked(entries: seq<Entry>, files: seq<Path>)
  datatype WalkedEntry = WalkedEntry(entry: Entry, files: seq<Path>)

  /**
   * `replace_template_vars_all_recursive` over the listing `es` of the
   * directory `dir`: the rewritten listing and the visited files in order.
   */
  function WalkEntries(es: seq<Entry>, dir: Path, exclude: seq<string>, vars: Vars): (w: Walked)
    ensures |w.entries| == |es|
    ensures forall i :: 0 <= i < |es| ==> w.entries[i].name == es[i].name
    decreases es
  {
    if es == [] then Walked([], [])
    else
      var head := WalkEntry(es[0], dir, exclude, vars);
      var rest := WalkEntries(es[1..], dir, exclude, vars);
      Walked([head.entry] + rest.entries, head.files + rest.files)
  }

  /** One entry of the walk: skipped if excluded, rewritten if a file, descended into if a directory. */
  function WalkEntry(e: Entry, dir: Path, exclude: seq<string>, vars: Vars): (w: WalkedEntry)
    ensures w.entry.name == e.name
    decreases e
  {
    if Excluded(e.name, exclude) then WalkedEntry(e, [])
    else
      match e.node
      case File(c) => WalkedEntry(Entry(e.name, File(Interpolate(c, vars))), [dir + [e.name]])
      case Dir(sub) =>
        var w := WalkEntries(sub, dir + [e.name], exclude, vars);
        WalkedEntry(Entry(e.name, Dir(w.entries)), w.files)
  }

  /**
   * `replace_template_vars_all(src, exclude, vars)`: the directory `src` must
   * exist; every file below it not under an excluded name is rewritten in
   * place, and the list of those files is returned.
   */
  function ReplaceTemplateVarsAll(t: Node, src: Path, exclude: seq<string>, vars: Vars): (r: Outcome<seq<Path>>)
    ensures r.result.Ok? <==> IsDirAt(t, src)
    ensures r.result.Err? ==> r.fs == t
    ensures !IsDirAt(t, src) ==> r.result == Err(ReadDirError(t, src))
  {
    match Lookup(t, src)
    case None => Outcome(t, Err(ReadDirError(t, src)))
    case Some(File(_)) => Outcome(t, Err(ReadDirError(t, src)))
    case Some(Dir(es)) =>
      var w := WalkEntries(es, src, exclude, vars);
      Outcome(Put(t, src, Dir(w.entries)), Ok(w.files))
  }

  // ---------------------------------------------------------------------
  // Reference definitions for the walk
  // ---------------------------------------------------------------------

  /** Every regular file below a listing, as relative paths, depth first in listing order. */
  function AllFiles(es: seq<Entry>): seq<Path>
    decreases es
  {
    if es == [] then [] else AllFilesOf(es[0]) + AllFiles(es[1..])
  }

  function AllFilesOf(e: Entry): seq<Path>
    decreases e
  {
    match e.node
    case File(_) => [[e.name]]
    case Dir(sub) => Prefixed([e.name], AllFiles(sub))
  }

  /** Each path of `ps` with `p` put in front. */
  function Prefixed(p: Path, ps: seq<Path>): (r: seq<Path>)
    ensures |r| == |ps|
    ensures forall i :: 0 <= i < |ps| ==> r[i] == p + ps[i]
  {
    if ps == [] then [] else [p + ps[0]] + Prefixed(p, ps[1..])
  }

  /** No component of the relative path `r` is excluded. */
  predicate Visible(r: Path, exclude: seq<string>) {
    forall i :: 0 <= i < |r| ==> !Excluded(r[i], exclude)
  }

  /** The paths of `ps` that are visible, in order. */
  function FilterVisible(ps: seq<Path>, exclude: seq<string>): (r: seq<Path>)
    ensures forall p :: p in r <==> p in ps && Visible(p, exclude)
  {
    if ps == [] then []
    else (if Visible(ps[0], exclude) then [ps[0]] else []) + FilterVisible(ps[1..], exclude)
  }

  /** The content a file has after the walk, given its content before and its relative path. */
  function Rewritten(before: Option<string>, r: Path, exclude: seq<string>, vars: Vars): Option<string> {
    match before
    case None => None
    case Some(c) => Some(if Visible(r, exclude) then Interpolate(c, vars) else c)
  }

  lemma {:induction false} PrefixedAppend(p: Path, a: seq<Path>, b: seq<Path>)
    ensures Prefixed(p, a + b) == Prefixed(p, a) + Prefixed(p, b)
  {
  }

  lemma {:induction false} PrefixedTwice(p: Path, q: Path, ps: seq<Path>)
    ensures Prefixed(p, Prefixed(q, ps)) == Prefixed(p + q, ps)
  {
    if ps != [] {
      PrefixedTwice(p, q, ps[1..]);
      assert Prefixed(q, ps)[1..] == Prefixed(q, ps[1..]);
      assert p + (q + ps[0]) == p + q + ps[0];
    }
  }

  /** A path below `name` is visible when `name` is not excluded and the rest of the path is visible. */
  lemma VisibleCons(name: string, r: Path, exclude: seq<string>)
    ensures Visible([name] + r, exclude) <==> !Excluded(name, exclude) && Visible(r, exclude)
  {
    var p := [name] + r;
    assert p[0] == name;
    assert forall i :: 0 <= i < |r| ==> p[i + 1] == r[i];
  }

  lemma {:induction false} FilterAppend(a: seq<Path>, b: seq<Path>, exclude: seq<string>)
    ensures FilterVisible(a + b, exclude) == FilterVisible(a, exclude) + FilterVisible(b, exclude)
  {
    if a == [] {
      assert a + b == b;
    } else {
      assert (a + b)[1..] == a[1..] + b;
      FilterAppend(a[1..], b, exclude);
    }
  }

  /** Below a visible name, visibility is decided by the rest of the path; below an excluded one nothing is visible. */
  lemma {:induction false} FilterPrefixed(name: string, ps: seq<Path>, exclude: seq<string>)
    ensures FilterVisible(Prefixed([name], ps), exclude)
         == if Excluded(name, exclude) then [] else Prefixed([name], FilterVisible(ps, exclude))
  {
    if ps != [] {
      FilterPrefixed(name, ps[1..], exclude);
      VisibleCons(name, ps[0], exclude);
      assert Prefixed([name], ps)[1..] == Prefixed([name], ps[1..]);
    }
  }

  // ---------------------------------------------------------------------
  // The walk against the reference
  // ---------------------------------------------------------------------

  /**
   * The walk lists exactly the visible files below `dir`, depth first in
   * listing order: an excluded entry and, for a directory, its whole
   * subtree are skipped at any depth.
   */
  lemma {:induction false} WalkEntriesVisits(es: seq<Entry>, dir: Path, exclude: seq<string>, vars: Vars)
    ensures WalkEntries(es, dir, exclude, vars).files == Prefixed(dir, FilterVisible(AllFiles(es), exclude))
    decreases es
  {
    if es != [] {
      WalkEntryVisits(es[0], dir, exclude, vars);
      WalkEntriesVisits(es[1..], dir, exclude, vars);
      FilterAppend(AllFilesOf(es[0]), AllFiles(es[1..]), exclude);
      PrefixedAppend(dir, FilterVisible(AllFilesOf(es[0]), exclude), FilterVisible(AllFiles(es[1..]), exclude));
    }
  }

  lemma {:induction false} WalkEntryVisits(e: Entry, dir: Path, exclude: seq<string>, vars: Vars)
    ensures WalkEntry(e, dir, exclude, vars).files == Prefixed(dir, FilterVisible(AllFilesOf(e), exclude))
    decreases e
  {
    match e.node
    case File(c) =>
      assert FilterVisible([[e.name]], exclude) == if Excluded(e.name, exclude) then [] else [[e.name]] by {
        assert [[e.name]][1..] == [];
        assert [e.name][0] == e.name;
      }
    case Dir(sub) =>
      FilterPrefixed(e.name, AllFiles(sub), exclude);
      if !Excluded(e.name, exclude) {
        WalkEntriesVisits(sub, dir + [e.name], exclude, vars);
        PrefixedTwice(dir, [e.name], FilterVisible(AllFiles(sub), exclude));
      }
  }

  /** In the rewritten listing, a name leads to the rewritten form of what it led to before. */
  lemma {:induction false} FindWalked(es: seq<Entry>, dir: Path, exclude: seq<string>, vars: Vars, x: string)
    ensures Find(WalkEntries(es, dir, exclude, vars).entries, x)
         == (match Find(es, x)
             case None => None
             case Some(n) => Some(WalkEntry(Entry(x, n), dir, exclude, vars).entry.node))
    decreases es
  {
    if es != [] {
      var w := WalkEntries(es, dir, exclude, vars);
      assert w.entries[1..] == WalkEntries(es[1..], dir, exclude, vars).entries;
      if es[0].name != x {
        FindWalked(es[1..], dir, exclude, vars, x);
      } else {
        assert es[0] == Entry(x, es[0].node);
      }
    }
  }

  /**
   * After the walk, each file keeps its place; its content is interpolated
   * when its path is visible and untouched otherwise; no file appears or
   * disappears.
   */
  lemma {:induction false} WalkEntriesContents(es: seq<Entry>, dir: Path, exclude: seq<string>, vars: Vars, r: Path)
    ensures FileAt(Dir(WalkEntries(es, dir, exclude, vars).entries), r)
         == Rewritten(FileAt(Dir(es), r), r, exclude, vars)
    decreases es
  {
    if r != [] {
      var x := r[0];
      assert r == [x] + r[1..];
      var w := WalkEntries(es, dir, exclude, vars);
      FileAtCons(w.entries, x, r[1..]);
      FileAtCons(es, x, r[1..]);
      FindWalked(es, dir, exclude, vars, x);
      match Find(es, x)
      case None =>
      case Some(n) =>
        var i :| 0 <= i < |es| && es[i] == Entry(x, n);
        WalkEntryContents(es[i], dir, exclude, vars, r[1..]);
        VisibleCons(x, r[1..], exclude);
    }
  }

  lemma {:induction false} WalkEntryContents(e: Entry, dir: Path, exclude: seq<string>, vars: Vars, r: Path)
    ensures FileAt(WalkEntry(e, dir, exclude, vars).entry.node, r)
         == if Excluded(e.name, exclude) then FileAt(e.node, r)
            else Rewritten(FileAt(e.node, r), r, exclude, vars)
    decreases e
  {
    if !Excluded(e.name, exclude) {
      match e.node
      case File(c) =>
      case Dir(sub) =>
        WalkEntriesContents(sub, dir + [e.name], exclude, vars, r);
    }
  }

  /** Without repeated names, the reference list holds exactly the files of the tree. */
  lemma {:induction false} AllFilesExact(es: seq<Entry>, r: Path)
    requires WellFormedEntries(es)
    ensures r in AllFiles(es) <==> FileAt(Dir(es), r).Some?
    decreases es
  {
    if es == [] {
      if r != [] {
        EmptyDirLookup(r);
      }
    } else {
      WellFormedTail(es);
      AllFilesOfExact(es[0], r);
      AllFilesExact(es[1..], r);
      FileAtSplit(es, r);
    }
  }

  lemma {:induction false} AllFilesOfExact(e: Entry, r: Path)
    requires WellFormed(e.node)
    ensures r in AllFilesOf(e) <==> FileAt(Dir([e]), r).Some?
    decreases e
  {
    if r != [] {
      assert r == [r[0]] + r[1..];
      FileAtCons([e], r[0], r[1..]);
    }
    match e.node
    case File(_) =>
      if r != [] {
        assert r == [e.name] <==> r[0] == e.name && r[1..] == [];
      }
    case Dir(sub) =>
      var ps := AllFiles(sub);
      if r != [] && r[0] == e.name {
        AllFilesExact(sub, r[1..]);
        if r[1..] in ps {
          var i :| 0 <= i < |ps| && ps[i] == r[1..];
          assert Prefixed([e.name], ps)[i] == r;
        }
      }
      if r in Prefixed([e.name], ps) {
        var i :| 0 <= i < |ps| && Prefixed([e.name], ps)[i] == r;
        assert r == [e.name] + ps[i];
        assert r[1..] == ps[i];
        AllFilesExact(sub, r[1..]);
      }
  }

  /**
   * `replace_template_vars_all` on an existing directory: it returns the
   * visible files below `src` depth first in listing order; each of them now
   * holds the interpolation of its old content; every other file, below
   * `src` or elsewhere, is untouched.
   */
  lemma ReplaceTemplateVarsAllSpec(t: Node, src: Path, exclude: seq<string>, vars: Vars)
    requires IsDirAt(t, src)
    ensures var out := ReplaceTemplateVarsAll(t, src, exclude, vars);
      && out.result == Ok(Prefixed(src, FilterVisible(AllFiles(Lookup(t, src).value.children), exclude)))
      && (forall r :: FileAt(out.fs, src + r) == Rewritten(FileAt(t, src + r), r, exclude, vars))
      && (forall q :: !IsPrefix(src, q) ==> FileAt(out.fs, q) == FileAt(t, q))
  {
    var es := Lookup(t, src).value.children;
    var w := WalkEntries(es, src, exclude, vars);
    var out := ReplaceTemplateVarsAll(t, src, exclude, vars);
    WalkEntriesVisits(es, src, exclude, vars);
    forall r
      ensures FileAt(out.fs, src + r) == Rewritten(FileAt(t, src + r), r, exclude, vars)
    {
      PutLookupBelow(t, src, Dir(w.entries), r);
      WalkEntriesContents(es, src, exclude, vars, r);
      FileAtAppend(t, src, r);
    }
    forall q | !IsPrefix(src, q)
      ensures FileAt(out.fs, q) == FileAt(t, q)
    {
      PutFileAtOutside(t, src, Dir(w.entries), q);
    }
  }

  /**
   * In a well-formed tree, a path is in the returned list exactly when it
   * names a file below `src` none of whose components below `src` is
   * excluded.
   */
  lemma ReplaceTemplateVarsAllVisited(t: Node, src: Path, exclude: seq<string>, vars: Vars, r: Path)
    requires WellFormed(t) && IsDirAt(t, src)
    ensures src + r in ReplaceTemplateVarsAll(t, src, exclude, vars).result.value
        <==> FileAt(t, src + r).Some? && Visible(r, exclude)
  {
    var es := Lookup(t, src).value.children;
    ReplaceTemplateVarsAllSpec(t, src, exclude, vars);
    LookupWellFormed(t, src);
    AllFilesExact(es, r);
    FileAtAppend(t, src, r);
    var ps := FilterVisible(AllFiles(es), exclude);
    if src + r in Prefixed(src, ps) {
      var i :| 0 <= i < |ps| && Prefixed(src, ps)[i] == src + r;
      assert src + ps[i] == src + r;
      assert ps[i] == (src + ps[i])[|src|..] == (src + r)[|src|..] == r;
    }
    if r in ps {
      var i :| 0 <= i < |ps| && ps[i] == r;
      assert Prefixed(src, ps)[i] == src + r;
    }
  }

  /**
   * The test of `replace_template_vars_all`: a directory holding one file
   * yields a one-element list with that file's path, and the file now holds
   * its interpolated content (for the test's content, see `HelloName`).
   */
  lemma OneFileDirectory(dir: string, name: string, content: string, vars: Vars)
    ensures var out := ReplaceTemplateVarsAll(Dir([Entry(dir, Dir([Entry(name, File(content))]))]), [dir], [], vars);
      && out.result == Ok([[dir, name]])
      && FileAt(out.fs, [dir, name]) == Some(Interpolate(content, vars))
  {
    var es := [Entry(name, File(content))];
    var t := Dir([Entry(dir, Dir(es))]);
    OneFileFacts(dir, name, content);
    ReplaceTemplateVarsAllSpec(t, [dir], [], vars);
    assert [dir] + [name] == [dir, name];
  }

  lemma OneFileFacts(dir: string, name: string, content: string)
    ensures var es := [Entry(name, File(content))];
      var t := Dir([Entry(dir, Dir(es))]);
      && Lookup(t, [dir]) == Some(Dir(es))
      && FileAt(t, [dir] + [name]) == Some(content)
      && Prefixed([dir], FilterVisible(AllFiles(es), [])) == [[dir, name]]
  {
    var es := [Entry(name, File(content))];
    var t := Dir([Entry(dir, Dir(es))]);
    LookupCons(t.children, dir, []);
    LookupCons(t.children, dir, [name]);
    LookupCons(es, name, []);
    assert AllFiles(es) == [[name]];
    assert FilterVisible([[name]], []) == [[name]];
    assert [dir] + [name] == [dir, name];
    assert Prefixed([dir], [[name]])[0] == [dir, name];
  }
}

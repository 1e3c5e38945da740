/**
 Template substitution: a loop of `str.replace` calls, and the single simultaneous
 substitution that it amounts to on templates whose placeholders are unambiguous.
 */
module Placeholders {
  import opened OrderedDict

  /** `${name}` */
  function Pattern(name: string): string {
    "${" + name + "}"
  }

  /** Python's `s.replace(pattern, value)`: leftmost, non-overlapping. */
  function Replace(s: string, pattern: string, value: string): string
    requires pattern != ""
    decreases |s|
  {
    if s == "" then ""
    else if pattern <= s then value + Replace(s[|pattern|..], pattern, value)
    else [s[0]] + Replace(s[1..], pattern, value)
  }

  /** A template as its author means it: characters and placeholders. */
  datatype Token = Char(c: char) | Placeholder(name: string)

  function RenderToken(t: Token): string {
    match t
    case Char(c) => [c]
    case Placeholder(name) => Pattern(name)
  }

  function Render(ts: seq<Token>): string {
    if ts == [] then "" else RenderToken(ts[0]) + Render(ts[1..])
  }

  /** A name that cannot be confused with the text around it. */
  predicate CleanName(name: string) {
    '$' !in name && '}' !in name
  }

  /** No `$` ends the tokens or stands before a `{` or a placeholder. */
  predicate Unambiguous(ts: seq<Token>) {
    if ts == [] then true
    else
      && (match ts[0]
          case Char(c) => c == '$' ==> |ts| > 1 && ts[1].Char? && ts[1].c != '{'
          case Placeholder(name) => CleanName(name))
      && Unambiguous(ts[1..])
  }

  function Chars(s: string): seq<Token> {
    if s == "" then [] else [Char(s[0])] + Chars(s[1..])
  }

  /** The tokens with every placeholder `name` replaced by the characters of `value`. */
  function Fill(ts: seq<Token>, name: string, value: string): seq<Token> {
    if ts == [] then []
    else (if ts[0] == Placeholder(name) then Chars(value) else [ts[0]]) + Fill(ts[1..], name, value)
  }

  /** The simultaneous substitution: one pass, in which inserted values are never looked at. */
  function Substitute(ts: seq<Token>, env: map<string, string>): string {
    if ts == [] then ""
    else
      (match ts[0]
       case Char(c) => [c]
       case Placeholder(name) => if name in env then env[name] else Pattern(name))
      + Substitute(ts[1..], env)
  }

  lemma {:induction false} RenderAppends(a: seq<Token>, b: seq<Token>)
    ensures Render(a + b) == Render(a) + Render(b)
  {
    if a == [] {
      assert a + b == b;
    } else {
      assert (a + b)[1..] == a[1..] + b;
      RenderAppends(a[1..], b);
    }
  }

  lemma {:induction false} RenderChars(s: string)
    ensures Render(Chars(s)) == s
  {
    if s != "" {
      RenderChars(s[1..]);
      assert Chars(s)[1..] == Chars(s[1..]);
    }
  }

  lemma {:induction false} SubstituteAppends(a: seq<Token>, b: seq<Token>, env: map<string, string>)
    ensures Substitute(a + b, env) == Substitute(a, env) + Substitute(b, env)
  {
    if a == [] {
      assert a + b == b;
    } else {
      assert (a + b)[1..] == a[1..] + b;
      SubstituteAppends(a[1..], b, env);
    }
  }

  lemma {:induction false} SubstituteChars(s: string, env: map<string, string>)
    ensures Substitute(Chars(s), env) == s
  {
    if s != "" {
      SubstituteChars(s[1..], env);
      assert Chars(s)[1..] == Chars(s[1..]);
    }
  }

  // ----- One replacement -----

  /** Text without a `$` is copied. */
  lemma {:induction false} CopiesText(u: string, rest: string, name: string, value: string)
    requires '$' !in u
    ensures Replace(u + rest, Pattern(name), value) == u + Replace(rest, Pattern(name), value)
    decreases |u|
  {
    if u == "" {
      assert u + rest == rest;
    } else {
      assert (u + rest)[0] == u[0] && u[0] in u;
      assert (u + rest)[1..] == u[1..] + rest;
      assert Pattern(name)[0] == '$';
      CopiesText(u[1..], rest, name, value);
    }
  }

  /** A `$` that does not begin the pattern is copied. */
  lemma {:induction false} CopiesDollar(rest: string, name: string, value: string)
    requires !(Pattern(name) <= "$" + rest)
    ensures Replace("$" + rest, Pattern(name), value) == "$" + Replace(rest, Pattern(name), value)
  {
  }

  lemma {:induction false} ReplacesPattern(rest: string, name: string, value: string)
    ensures Replace(Pattern(name) + rest, Pattern(name), value) == value + Replace(rest, Pattern(name), value)
  {
  }

  /** The length of the longest prefix without `$` and `}`. */
  function NameLength(s: string): (n: nat)
    ensures n <= |s| && CleanName(s[..n])
    ensures n < |s| ==> s[n] == '$' || s[n] == '}'
  {
    if s == "" || s[0] == '$' || s[0] == '}' then 0
    else
      var n := NameLength(s[1..]);
      assert s[..n + 1] == [s[0]] + s[1..][..n];
      n + 1
  }

  lemma {:induction false} NameLengthOf(name: string, rest: string)
    requires CleanName(name)
    ensures NameLength(name + "}" + rest) == |name|
  {
    var s := name + "}" + rest;
    if name != "" {
      NameLengthOf(name[1..], rest);
      assert s[1..] == name[1..] + "}" + rest;
      assert s[0] == name[0] && name[0] in name;
    }
  }

  lemma PatternRest(name: string, rest: string)
    ensures (Pattern(name) + rest)[2..] == name + "}" + rest
  {
  }

  /** A placeholder matches the pattern of its own name only. */
  lemma OnlyOwnName(m: string, rest: string, name: string)
    requires CleanName(m) && CleanName(name)
    ensures Pattern(name) <= Pattern(m) + rest <==> m == name
  {
    var s := Pattern(m) + rest;
    PatternRest(m, rest);
    NameLengthOf(m, rest);
    if Pattern(name) <= s {
      var tail := s[|Pattern(name)|..];
      assert s == Pattern(name) + tail;
      PatternRest(name, tail);
      NameLengthOf(name, tail);
      assert m == s[2..][..|m|] == s[2..][..|name|] == name;
    }
  }

  // ----- Text that neither contains nor begins a placeholder -----

  /** No placeholder begins at the start of `s`, whatever follows `s`: it does not start with
      `$`, or the `$` is followed by something other than `{`, or the name after `${` runs into
      another `$`. */
  predicate Inert(s: string)
    requires s != ""
  {
    s[0] == '$' ==>
      && |s| > 1
      && (s[1] != '{' || var n := NameLength(s[2..]); n < |s| - 2 && s[2 + n] == '$')
  }

  /** A value that can be put before any text: it is inert at every position. */
  predicate Settled(value: string) {
    value == "" || (Inert(value) && Settled(value[1..]))
  }

  lemma {:induction false} NameLengthExtends(s: string, t: string)
    requires NameLength(s) < |s|
    ensures NameLength(s + t) == NameLength(s)
  {
    if s[0] != '$' && s[0] != '}' {
      NameLengthExtends(s[1..], t);
      assert (s + t)[1..] == s[1..] + t;
    }
  }

  lemma InertExtends(s: string, t: string)
    requires s != "" && Inert(s)
    ensures Inert(s + t)
  {
    if s[0] == '$' && s[1] == '{' {
      NameLengthExtends(s[2..], t);
      assert (s + t)[2..] == s[2..] + t;
    }
  }

  lemma PatternIsNotInert(s: string, name: string)
    requires s != "" && CleanName(name)
    ensures Pattern(name) <= s ==> !Inert(s)
  {
    if Pattern(name) <= s {
      var tail := s[|Pattern(name)|..];
      assert s == Pattern(name) + tail;
      PatternRest(name, tail);
      NameLengthOf(name, tail);
    }
  }

  /** Text that is not inert begins a placeholder, or some continuation of it does. */
  lemma NotInert(s: string) returns (name: string, rest: string)
    requires s != "" && !Inert(s)
    ensures CleanName(name) && '$' !in rest && Pattern(name) <= s + rest
  {
    if |s| == 1 {
      name, rest := "", "{}";
      assert s + rest == Pattern(name);
    } else {
      var n := NameLength(s[2..]);
      name := s[2..][..n];
      if n == |s| - 2 {
        rest := "}";
        assert s + rest == Pattern(name);
      } else {
        rest := "";
        assert s == Pattern(name) + s[3 + n..];
      }
    }
  }

  /** What being settled means: the pattern of a clean name begins nowhere in the value, and
      no tail of the value is the beginning of such a pattern. */
  ghost predicate FreeOfPatterns(value: string) {
    forall i, name | 0 <= i < |value| && CleanName(name) ::
      !(Pattern(name) <= value[i..]) && !(value[i..] <= Pattern(name))
  }

  lemma InertMeans(s: string)
    requires s != ""
    ensures Inert(s) <==> forall name | CleanName(name) :: !(Pattern(name) <= s) && !(s <= Pattern(name))
  {
    if Inert(s) {
      forall name | CleanName(name) ensures !(Pattern(name) <= s) && !(s <= Pattern(name)) {
        PatternIsNotInert(s, name);
        var t := if s <= Pattern(name) then Pattern(name)[|s|..] else "";
        InertExtends(s, t);
        PatternIsNotInert(s + t, name);
      }
    } else {
      var name, rest := NotInert(s);
      PrefixesCompare(Pattern(name), s, rest);
    }
  }

  lemma PrefixesCompare(p: string, s: string, t: string)
    requires p <= s + t
    ensures p <= s || s <= p
  {
    assert (s + t)[..|s|] == s;
  }

  lemma {:induction false} SettledMeans(value: string)
    ensures Settled(value) <==> FreeOfPatterns(value)
  {
    if value != "" {
      InertMeans(value);
      SettledMeans(value[1..]);
      assert value[0..] == value;
      forall i | 0 < i < |value| ensures value[i..] == value[1..][i - 1..] {
      }
      if FreeOfPatterns(value) {
        assert FreeOfPatterns(value[1..]) by {
          forall i, name | 0 <= i < |value[1..]| && CleanName(name)
            ensures !(Pattern(name) <= value[1..][i..]) && !(value[1..][i..] <= Pattern(name))
          {
            assert value[1..][i..] == value[i + 1..];
          }
        }
      }
    }
  }

  // ----- Tokens that stay what they are when values are filled in -----

  /** The characters before the first placeholder. */
  function Head(ts: seq<Token>): string {
    if ts == [] || ts[0].Placeholder? then "" else [ts[0].c] + Head(ts[1..])
  }

  /** Every `$` is inert by the characters that follow it alone. */
  predicate Stable(ts: seq<Token>) {
    if ts == [] then true
    else
      && (match ts[0]
          case Char(c) => Inert(Head(ts))
          case Placeholder(name) => CleanName(name))
      && Stable(ts[1..])
  }

  lemma {:induction false} UnambiguousIsStable(ts: seq<Token>)
    requires Unambiguous(ts)
    ensures Stable(ts)
  {
    if ts != [] {
      UnambiguousIsStable(ts[1..]);
      if ts[0] == Char('$') {
        assert Head(ts) == "$" + Head(ts[1..]);
        assert Head(ts)[1] == ts[1].c;
      }
    }
  }

  lemma {:induction false} HeadOfRender(ts: seq<Token>)
    ensures Head(ts) <= Render(ts)
  {
    if ts != [] && ts[0].Char? {
      HeadOfRender(ts[1..]);
    }
  }

  /** No placeholder begins at a character of stable tokens. */
  lemma {:induction false} LoneDollar(ts: seq<Token>, name: string)
    requires Stable(ts) && ts != [] && ts[0].Char? && CleanName(name)
    ensures !(Pattern(name) <= [ts[0].c] + Render(ts[1..]))
  {
    var s := Render(ts);
    HeadOfRender(ts);
    assert s == Head(ts) + s[|Head(ts)|..];
    InertExtends(Head(ts), s[|Head(ts)|..]);
    PatternIsNotInert(s, name);
  }

  lemma {:induction false} CopiesPlaceholder(m: string, rest: string, name: string, value: string)
    requires CleanName(m) && CleanName(name) && m != name
    ensures Replace(Pattern(m) + rest, Pattern(name), value) == Pattern(m) + Replace(rest, Pattern(name), value)
  {
    OnlyOwnName(m, rest, name);
    var body := "{" + m + "}";
    assert Pattern(m) == "$" + body;
    assert Pattern(m) + rest == "$" + (body + rest);
    CopiesDollar(body + rest, name, value);
    CopiesText(body, rest, name, value);
  }

  /** The pattern of `name` begins at no character. */
  predicate Quiet(ts: seq<Token>, name: string) {
    if ts == [] then true
    else
      && (match ts[0]
          case Char(c) => !(Pattern(name) <= Render(ts))
          case Placeholder(m) => CleanName(m))
      && Quiet(ts[1..], name)
  }

  lemma {:induction false} StableIsQuiet(ts: seq<Token>, name: string)
    requires Stable(ts) && CleanName(name)
    ensures Quiet(ts, name)
  {
    if ts != [] {
      StableIsQuiet(ts[1..], name);
      if ts[0].Char? {
        LoneDollar(ts, name);
      }
    }
  }

  /** One `replace` call fills exactly the placeholders of that name. */
  lemma {:induction false} ReplaceFills(ts: seq<Token>, name: string, value: string)
    requires Quiet(ts, name) && CleanName(name)
    ensures Replace(Render(ts), Pattern(name), value) == Render(Fill(ts, name, value))
  {
    if ts != [] {
      var rest := Render(ts[1..]);
      ReplaceFills(ts[1..], name, value);
      match ts[0]
      case Char(c) =>
        RenderAppends([ts[0]], Fill(ts[1..], name, value));
        if c == '$' {
          CopiesDollar(rest, name, value);
        } else {
          CopiesText([c], rest, name, value);
        }
      case Placeholder(m) =>
        if m == name {
          ReplacesPattern(rest, name, value);
          RenderAppends(Chars(value), Fill(ts[1..], name, value));
          RenderChars(value);
        } else {
          CopiesPlaceholder(m, rest, name, value);
          RenderAppends([ts[0]], Fill(ts[1..], name, value));
        }
    }
  }

  lemma {:induction false} FirstOfChars(s: string, ts: seq<Token>)
    requires s != ""
    ensures Chars(s) + ts != [] && (Chars(s) + ts)[0] == Char(s[0])
    ensures (Chars(s) + ts)[1..] == Chars(s[1..]) + ts
  {
    ConsAppends(Char(s[0]), Chars(s[1..]), ts);
  }

  lemma ConsAppends(t: Token, a: seq<Token>, b: seq<Token>)
    ensures ([t] + a) + b == [t] + (a + b) && ([t] + (a + b))[1..] == a + b
  {
  }

  lemma SplitFirst(s: string, t: string)
    requires s != ""
    ensures [s[0]] + (s[1..] + t) == s + t
  {
  }

  lemma {:induction false} HeadAppends(s: string, ts: seq<Token>)
    ensures Head(Chars(s) + ts) == s + Head(ts)
  {
    if s == "" {
      assert Chars(s) + ts == ts;
    } else {
      HeadAppends(s[1..], ts);
      FirstOfChars(s, ts);
      SplitFirst(s, Head(ts));
    }
  }

  lemma {:induction false} StableAppends(value: string, ts: seq<Token>)
    requires Settled(value) && Stable(ts)
    ensures Stable(Chars(value) + ts)
  {
    if value == "" {
      assert Chars(value) + ts == ts;
    } else {
      StableAppends(value[1..], ts);
      FirstOfChars(value, ts);
      HeadAppends(value, ts);
      InertExtends(value, Head(ts));
    }
  }

  lemma {:induction false} HeadOfFill(ts: seq<Token>, name: string, value: string)
    ensures Head(ts) <= Head(Fill(ts, name, value))
  {
    if ts != [] && ts[0].Char? {
      HeadOfFill(ts[1..], name, value);
      assert Fill(ts, name, value)[1..] == Fill(ts[1..], name, value);
    }
  }

  /** Filling in a settled value keeps the tokens stable. */
  lemma {:induction false} FillStable(ts: seq<Token>, name: string, value: string)
    requires Stable(ts) && Settled(value)
    ensures Stable(Fill(ts, name, value))
  {
    if ts != [] {
      var filled := Fill(ts[1..], name, value);
      FillStable(ts[1..], name, value);
      if ts[0] == Placeholder(name) {
        StableAppends(value, filled);
      } else {
        assert ([ts[0]] + filled)[1..] == filled;
        if ts[0].Char? {
          HeadOfFill(ts, name, value);
          var more := Head(Fill(ts, name, value));
          assert more == Head(ts) + more[|Head(ts)|..];
          InertExtends(Head(ts), more[|Head(ts)|..]);
        }
      }
    }
  }

  /** Filling one placeholder first makes no difference to a simultaneous substitution. */
  lemma {:induction false} FillThenSubstitute(ts: seq<Token>, name: string, value: string, env: map<string, string>)
    ensures Substitute(Fill(ts, name, value), env) == Substitute(ts, env[name := value])
  {
    if ts != [] {
      FillThenSubstitute(ts[1..], name, value, env);
      if ts[0] == Placeholder(name) {
        SubstituteAppends(Chars(value), Fill(ts[1..], name, value), env);
        SubstituteChars(value, env);
      } else {
        SubstituteAppends([ts[0]], Fill(ts[1..], name, value), env);
        assert [ts[0]][1..] == [];
      }
    }
  }

  lemma {:induction false} SubstituteNothing(ts: seq<Token>)
    ensures Substitute(ts, map[]) == Render(ts)
  {
    if ts != [] {
      SubstituteNothing(ts[1..]);
    }
  }

  // ----- The loop -----

  /** A declared variable with the value it gets. */
  datatype Binding = Binding(name: string, value: string)

  function ReplaceAll(content: string, bindings: seq<Binding>): string
    decreases |bindings|
  {
    if bindings == [] then content
    else ReplaceAll(Replace(content, Pattern(bindings[0].name), bindings[0].value), bindings[1..])
  }

  /** What each name stands for: of two declarations of one name, the first. */
  function Environment(bindings: seq<Binding>): map<string, string> {
    if bindings == [] then map[]
    else Environment(bindings[1..])[bindings[0].name := bindings[0].value]
  }

  /** Clean names, and settled values except for the last one, which is never searched. */
  predicate SettledBindings(bindings: seq<Binding>) {
    || bindings == []
    || (&& CleanName(bindings[0].name)
        && (|bindings| > 1 ==> Settled(bindings[0].value))
        && SettledBindings(bindings[1..]))
  }

  /** Sequential replacement is simultaneous substitution: on stable tokens, if every value
      that is searched for later names is settled, the loop does what a single pass does. */
  lemma {:induction false} LoopIsSubstitution(ts: seq<Token>, bindings: seq<Binding>)
    requires Stable(ts) && SettledBindings(bindings)
    ensures ReplaceAll(Render(ts), bindings) == Substitute(ts, Environment(bindings))
    decreases |bindings|
  {
    if bindings == [] {
      SubstituteNothing(ts);
    } else {
      var b := bindings[0];
      var filled := Fill(ts, b.name, b.value);
      StableIsQuiet(ts, b.name);
      ReplaceFills(ts, b.name, b.value);
      FillThenSubstitute(ts, b.name, b.value, Environment(bindings[1..]));
      if |bindings| == 1 {
        SubstituteNothing(filled);
      } else {
        FillStable(ts, b.name, b.value);
        LoopIsSubstitution(filled, bindings[1..]);
      }
    }
  }

  // ----- Which strings are unambiguous templates -----

  /** Reads a string as an unambiguous template, if it is one. */
  function Tokenise(s: string): Option<seq<Token>>
    decreases |s|
  {
    if s == "" then Some([])
    else if |s| > 1 && s[..2] == "${" then
      var n := NameLength(s[2..]);
      if n < |s| - 2 && s[2 + n] == '}' then
        match Tokenise(s[3 + n..])
        case None => None
        case Some(ts) => Some([Placeholder(s[2..2 + n])] + ts)
      else None
    else
      match Tokenise(s[1..])
      case None => None
      case Some(ts) =>
        if s[0] == '$' && (ts == [] || ts[0].Placeholder?) then None else Some([Char(s[0])] + ts)
  }

  lemma SplitsAtPlaceholder(s: string, n: nat)
    requires n + 2 < |s| && s[..2] == "${" && s[2 + n] == '}'
    ensures s == Pattern(s[2..2 + n]) + s[3 + n..]
  {
  }

  lemma {:induction false} PlaceholderFirst(name: string, ts: seq<Token>)
    requires CleanName(name) && Unambiguous(ts)
    ensures Unambiguous([Placeholder(name)] + ts)
    ensures Render([Placeholder(name)] + ts) == Pattern(name) + Render(ts)
  {
  }

  lemma {:induction false} CharFirst(c: char, ts: seq<Token>)
    requires Unambiguous(ts) && (c == '$' ==> ts != [] && ts[0].Char? && ts[0].c != '{')
    ensures Unambiguous([Char(c)] + ts)
    ensures Render([Char(c)] + ts) == [c] + Render(ts)
  {
  }

  lemma Opening(s: string)
    requires |s| > 1
    ensures s[..2] == "${" <==> s[0] == '$' && s[1] == '{'
  {
  }

  lemma {:induction false} TokeniseSound(s: string)
    ensures var r := Tokenise(s); r.Some? ==> Unambiguous(r.value) && Render(r.value) == s
    decreases |s|
  {
    if s == "" {
    } else if |s| > 1 && s[..2] == "${" {
      var n := NameLength(s[2..]);
      if n < |s| - 2 && s[2 + n] == '}' {
        TokeniseSound(s[3 + n..]);
        SplitsAtPlaceholder(s, n);
        if Tokenise(s[3 + n..]).Some? {
          PlaceholderFirst(s[2..2 + n], Tokenise(s[3 + n..]).value);
        }
      }
    } else {
      TokeniseSound(s[1..]);
      assert s == [s[0]] + s[1..];
      if Tokenise(s).Some? {
        if |s| > 1 {
          Opening(s);
          assert s[1..][0] == s[1];
        }
        CharFirst(s[0], Tokenise(s[1..]).value);
      }
    }
  }

  lemma {:induction false} TokeniseChar(c: char, rest: string)
    requires !(c == '$' && rest != "" && rest[0] == '{')
    ensures Tokenise([c] + rest) ==
      match Tokenise(rest)
      case None => None
      case Some(ts) => if c == '$' && (ts == [] || ts[0].Placeholder?) then None else Some([Char(c)] + ts)
  {
    var s := [c] + rest;
    assert s[1..] == rest;
    if |s| > 1 {
      assert s[..2] == [c, rest[0]];
    }
  }

  lemma {:induction false} TokenisePlaceholder(m: string, rest: string)
    requires CleanName(m)
    ensures Tokenise(Pattern(m) + rest) ==
      match Tokenise(rest)
      case None => None
      case Some(ts) => Some([Placeholder(m)] + ts)
  {
    var s := Pattern(m) + rest;
    NameLengthOf(m, rest);
    assert s[2..] == m + "}" + rest;
    assert s[..2] == "${" && s[2..2 + |m|] == m && s[3 + |m|..] == rest;
  }

  /** Reading undoes rendering: an unambiguous template has one reading. */
  lemma {:induction false} TokeniseRender(ts: seq<Token>)
    requires Unambiguous(ts)
    ensures Tokenise(Render(ts)) == Some(ts)
  {
    if ts != [] {
      TokeniseRender(ts[1..]);
      assert ts == [ts[0]] + ts[1..];
      match ts[0]
      case Char(c) =>
        if c == '$' {
          assert Render(ts[1..])[0] == ts[1].c;
        }
        TokeniseChar(c, Render(ts[1..]));
      case Placeholder(m) =>
        TokenisePlaceholder(m, Render(ts[1..]));
    }
  }

  /** The loop on strings: whenever the template can be read, its placeholders are filled
      simultaneously. */
  lemma {:induction false} SequentialIsSimultaneous(content: string, bindings: seq<Binding>)
    requires Tokenise(content).Some? && SettledBindings(bindings)
    ensures ReplaceAll(content, bindings) == Substitute(Tokenise(content).value, Environment(bindings))
  {
    TokeniseSound(content);
    UnambiguousIsStable(Tokenise(content).value);
    LoopIsSubstitution(Tokenise(content).value, bindings);
  }

  // ----- Which values may be searched -----

  lemma {:induction false} TwoReplacements(content: string, a: Binding, b: Binding)
    ensures ReplaceAll(content, [a, b])
         == Replace(Replace(content, Pattern(a.name), a.value), Pattern(b.name), b.value)
  {
    assert [a, b][1..] == [b] && [b][1..] == [];
    var once := Replace(content, Pattern(a.name), a.value);
    assert ReplaceAll(once, [b]) == ReplaceAll(Replace(once, Pattern(b.name), b.value), []);
  }

  lemma {:induction false} WholeReplaced(name: string, value: string)
    ensures Replace(Pattern(name), Pattern(name), value) == value
  {
  }

  /** A value that contains a placeholder is expanded again if its variable comes later, so
      the order of the variables shows. */
  lemma PlaceholderInValueDependsOnOrder()
    ensures var a, b := Binding("a", Pattern("b")), Binding("b", "x");
            && !Settled(a.value)
            && ReplaceAll(Pattern("a"), [a, b]) == "x"
            && ReplaceAll(Pattern("a"), [b, a]) == Pattern("b")
  {
    var a, b := Binding("a", Pattern("b")), Binding("b", "x");
    TwoReplacements(Pattern("a"), a, b);
    TwoReplacements(Pattern("a"), b, a);
    WholeReplaced("a", Pattern("b"));
    WholeReplaced("b", "x");
    CopiesPlaceholder("a", "", "b", "x");
    assert Pattern("a") + "" == Pattern("a");
    PatternIsNotInert(Pattern("b"), "b");
  }

  /** `pattern in s` */
  predicate Contains(s: string, pattern: string)
    decreases |s|
  {
    pattern <= s || (s != "" && Contains(s[1..], pattern))
  }

  lemma {:induction false} Removes(s: string, pattern: string)
    requires pattern != ""
    ensures |Replace(s, pattern, "")| <= |s|
    ensures Contains(s, pattern) ==> |Replace(s, pattern, "")| < |s|
    decreases |s|
  {
    if s != "" {
      Removes(if pattern <= s then s[|pattern|..] else s[1..], pattern);
    }
  }

  /** A value that is not settled contains a pattern, or completes one with some text. */
  lemma {:induction false} NotSettled(value: string) returns (name: string, rest: string)
    requires !Settled(value)
    ensures CleanName(name) && '$' !in rest && Contains(value + rest, Pattern(name))
  {
    if Inert(value) {
      name, rest := NotSettled(value[1..]);
      assert (value + rest)[1..] == value[1..] + rest;
    } else {
      name, rest := NotInert(value);
    }
  }

  lemma {:induction false} PlainText(s: string)
    requires '$' !in s
    ensures Unambiguous(Chars(s))
  {
    if s != "" {
      assert s[0] in s;
      PlainText(s[1..]);
      assert Chars(s)[1..] == Chars(s[1..]);
    }
  }

  /** The template `${a}rest` filled with `value`, one way and the other. */
  lemma {:induction false} FilledBefore(a: string, value: string, rest: string, b: Binding)
    requires CleanName(a) && '$' !in rest
    ensures var ts := [Placeholder(a)] + Chars(rest);
            && Unambiguous(ts)
            && ReplaceAll(Render(ts), [Binding(a, value), b]) == Replace(value + rest, Pattern(b.name), b.value)
            && Substitute(ts, Environment([Binding(a, value), b])) == value + rest
  {
    var ts := [Placeholder(a)] + Chars(rest);
    assert ts[1..] == Chars(rest);
    PlainText(rest);
    RenderChars(rest);
    SubstituteChars(rest, Environment([Binding(a, value), b]));
    TwoReplacements(Render(ts), Binding(a, value), b);
    ReplacesPattern(rest, a, value);
    CopiesText(rest, "", a, value);
    assert rest + "" == rest;
  }

  /** The loop substitutes `value` for `a` simultaneously, whatever the template and the
      variable after it are. */
  ghost predicate SimultaneousBeforeAny(a: string, value: string) {
    forall ts: seq<Token>, b: Binding | Unambiguous(ts) && CleanName(b.name) ::
      ReplaceAll(Render(ts), [Binding(a, value), b]) == Substitute(ts, Environment([Binding(a, value), b]))
  }

  lemma {:induction false} UnsettledDiverges(a: string, value: string)
    requires CleanName(a) && !Settled(value)
    ensures !SimultaneousBeforeAny(a, value)
  {
    var name, rest := NotSettled(value);
    var ts, b := [Placeholder(a)] + Chars(rest), Binding(name, "");
    FilledBefore(a, value, rest, b);
    Removes(value + rest, Pattern(name));
    assert ReplaceAll(Render(ts), [Binding(a, value), b]) != Substitute(ts, Environment([Binding(a, value), b]));
  }

  /** A value is substituted simultaneously in every template and before every other variable
      if and only if it is settled. */
  lemma {:induction false} SimultaneousIffSettled(a: string, value: string)
    requires CleanName(a)
    ensures SimultaneousBeforeAny(a, value) <==> Settled(value)
  {
    if Settled(value) {
      forall ts: seq<Token>, b: Binding | Unambiguous(ts) && CleanName(b.name)
        ensures ReplaceAll(Render(ts), [Binding(a, value), b]) == Substitute(ts, Environment([Binding(a, value), b]))
      {
        UnambiguousIsStable(ts);
        assert [Binding(a, value), b][1..] == [b] && [b][1..] == [];
        assert SettledBindings([b]);
        LoopIsSubstitution(ts, [Binding(a, value), b]);
      }
    } else {
      UnsettledDiverges(a, value);
    }
  }

  // ----- What is left -----

  lemma {:induction false} ContainsBeyondText(u: string, rest: string, name: string)
    requires '$' !in u
    ensures Contains(u + rest, Pattern(name)) <==> Contains(rest, Pattern(name))
    decreases |u|
  {
    if u == "" {
      assert u + rest == rest;
    } else {
      assert (u + rest)[0] == u[0] && u[0] in u;
      assert (u + rest)[1..] == u[1..] + rest;
      ContainsBeyondText(u[1..], rest, name);
    }
  }

  lemma {:induction false} ContainsBeyondPlaceholder(m: string, rest: string, name: string)
    requires CleanName(m) && CleanName(name)
    ensures Contains(Pattern(m) + rest, Pattern(name)) <==> m == name || Contains(rest, Pattern(name))
  {
    OnlyOwnName(m, rest, name);
    var body := "{" + m + "}";
    assert Pattern(m) + rest == "$" + (body + rest);
    assert ("$" + (body + rest))[1..] == body + rest;
    ContainsBeyondText(body, rest, name);
  }

  /** The text of stable tokens contains `${name}` exactly when they have that placeholder. */
  lemma {:induction false} ContainsIffToken(ts: seq<Token>, name: string)
    requires Stable(ts) && CleanName(name)
    ensures Contains(Render(ts), Pattern(name)) <==> Placeholder(name) in ts
  {
    if ts != [] {
      ContainsIffToken(ts[1..], name);
      assert ts == [ts[0]] + ts[1..];
      match ts[0]
      case Char(c) =>
        if c == '$' {
          LoneDollar(ts, name);
          assert Render(ts)[1..] == Render(ts[1..]);
        } else {
          ContainsBeyondText([c], Render(ts[1..]), name);
        }
      case Placeholder(m) => ContainsBeyondPlaceholder(m, Render(ts[1..]), name);
    }
  }

  function FillAll(ts: seq<Token>, bindings: seq<Binding>): seq<Token>
    decreases |bindings|
  {
    if bindings == [] then ts else FillAll(Fill(ts, bindings[0].name, bindings[0].value), bindings[1..])
  }

  lemma {:induction false} CharsHaveNoPlaceholder(s: string, name: string)
    ensures Placeholder(name) !in Chars(s)
  {
    if s != "" {
      CharsHaveNoPlaceholder(s[1..], name);
    }
  }

  lemma {:induction false} FillRemoves(ts: seq<Token>, name: string, value: string, other: string)
    ensures Placeholder(other) in Fill(ts, name, value) <==> Placeholder(other) in ts && other != name
  {
    if ts != [] {
      FillRemoves(ts[1..], name, value, other);
      CharsHaveNoPlaceholder(value, other);
      assert ts == [ts[0]] + ts[1..];
    }
  }

  predicate Declares(bindings: seq<Binding>, name: string) {
    bindings != [] && (bindings[0].name == name || Declares(bindings[1..], name))
  }

  predicate AllSettled(bindings: seq<Binding>) {
    bindings == [] || (CleanName(bindings[0].name) && Settled(bindings[0].value) && AllSettled(bindings[1..]))
  }

  lemma {:induction false} LoopFills(ts: seq<Token>, bindings: seq<Binding>, name: string)
    requires Stable(ts) && AllSettled(bindings)
    ensures ReplaceAll(Render(ts), bindings) == Render(FillAll(ts, bindings))
    ensures Stable(FillAll(ts, bindings))
    ensures Placeholder(name) in FillAll(ts, bindings) <==> Placeholder(name) in ts && !Declares(bindings, name)
    decreases |bindings|
  {
    if bindings != [] {
      var b := bindings[0];
      StableIsQuiet(ts, b.name);
      ReplaceFills(ts, b.name, b.value);
      FillStable(ts, b.name, b.value);
      FillRemoves(ts, b.name, b.value, name);
      LoopFills(Fill(ts, b.name, b.value), bindings[1..], name);
    }
  }

  /** No declared placeholder is left in the result, and no other one is lost or created. */
  lemma {:induction false} UndeclaredPlaceholdersRemain(content: string, bindings: seq<Binding>, name: string)
    requires Tokenise(content).Some? && AllSettled(bindings) && CleanName(name)
    ensures Contains(ReplaceAll(content, bindings), Pattern(name))
            <==> Contains(content, Pattern(name)) && !Declares(bindings, name)
  {
    var ts := Tokenise(content).value;
    TokeniseSound(content);
    UnambiguousIsStable(ts);
    LoopFills(ts, bindings, name);
    ContainsIffToken(ts, name);
    ContainsIffToken(FillAll(ts, bindings), name);
  }

  // ----- The order of the variables -----

  predicate DistinctNames(bindings: seq<Binding>) {
    forall i, j :: 0 <= i < j < |bindings| ==> bindings[i].name != bindings[j].name
  }

  lemma {:induction false} EnvironmentOf(bindings: seq<Binding>)
    requires DistinctNames(bindings)
    ensures forall n :: n in Environment(bindings) <==> exists i :: 0 <= i < |bindings| && bindings[i].name == n
    ensures forall b :: b in bindings ==> Environment(bindings)[b.name] == b.value
  {
    if bindings != [] {
      EnvironmentOf(bindings[1..]);
      forall n | n in Environment(bindings)
        ensures exists i :: 0 <= i < |bindings| && bindings[i].name == n
      {
        if n != bindings[0].name {
          var i :| 0 <= i < |bindings[1..]| && bindings[1..][i].name == n;
          assert bindings[i + 1].name == n;
        }
      }
      forall i | 0 <= i < |bindings| ensures bindings[i].name in Environment(bindings) {
        if i > 0 {
          assert bindings[1..][i - 1].name == bindings[i].name;
        }
      }
    }
  }

  /** Distinctly named variables may be declared in any order. */
  lemma {:induction false} OrderIsIrrelevant(ts: seq<Token>, a: seq<Binding>, b: seq<Binding>)
    requires Stable(ts) && SettledBindings(a) && SettledBindings(b)
    requires DistinctNames(a) && DistinctNames(b) && forall x :: x in a <==> x in b
    ensures ReplaceAll(Render(ts), a) == ReplaceAll(Render(ts), b)
  {
    LoopIsSubstitution(ts, a);
    LoopIsSubstitution(ts, b);
    EnvironmentOf(a);
    EnvironmentOf(b);
    forall n | n in Environment(a) ensures n in Environment(b) && Environment(a)[n] == Environment(b)[n] {
      var i :| 0 <= i < |a| && a[i].name == n;
      assert a[i] in b;
    }
    forall n | n in Environment(b) ensures n in Environment(a) {
      var i :| 0 <= i < |b| && b[i].name == n;
      assert b[i] in a;
    }
    assert Environment(a) == Environment(b);
  }
}

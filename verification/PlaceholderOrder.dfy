/**
 When the order of two variables shows. A value may contain its own placeholder, which is never
 replaced again; it must not contain or complete that of any other name.
 */
module PlaceholderOrder {
  import opened Placeholders

  /** At every position the value is inert, or its own placeholder begins there. */
  predicate SettledBut(value: string, own: string) {
    value == "" || ((Inert(value) || Pattern(own) <= value) && SettledBut(value[1..], own))
  }

  lemma {:induction false} SettledIsSettledBut(value: string, own: string)
    requires Settled(value)
    ensures SettledBut(value, own)
  {
    if value != "" {
      SettledIsSettledBut(value[1..], own);
    }
  }

  /** Such a value keeps the other names quiet. */
  lemma NoOtherPattern(value: string, rest: string, own: string, name: string)
    requires value != "" && CleanName(own) && CleanName(name) && name != own
    requires Inert(value) || Pattern(own) <= value
    ensures !(Pattern(name) <= value + rest)
  {
    if Inert(value) {
      InertExtends(value, rest);
      PatternIsNotInert(value + rest, name);
    } else {
      var tail := value[|Pattern(own)|..];
      assert value + rest == Pattern(own) + (tail + rest);
      OnlyOwnName(own, tail + rest, name);
    }
  }

  lemma {:induction false} QuietAppends(value: string, ts: seq<Token>, own: string, name: string)
    requires SettledBut(value, own) && Quiet(ts, name)
    requires CleanName(own) && CleanName(name) && name != own
    ensures Quiet(Chars(value) + ts, name)
  {
    if value == "" {
      assert Chars(value) + ts == ts;
    } else {
      QuietAppends(value[1..], ts, own, name);
      FirstOfChars(value, ts);
      RenderAppends(Chars(value), ts);
      RenderChars(value);
      NoOtherPattern(value, Render(ts), own, name);
    }
  }

  lemma {:induction false} QuietFill(ts: seq<Token>, own: string, value: string, name: string)
    requires Stable(ts) && SettledBut(value, own)
    requires CleanName(own) && CleanName(name) && name != own
    ensures Quiet(Fill(ts, own, value), name)
  {
    if ts != [] {
      var filled := Fill(ts[1..], own, value);
      QuietFill(ts[1..], own, value, name);
      if ts[0] == Placeholder(own) {
        QuietAppends(value, filled, own, name);
      } else {
        assert ([ts[0]] + filled)[1..] == filled;
        if ts[0].Char? {
          CharStaysQuiet(ts, own, value, name);
        }
      }
    }
  }

  lemma {:induction false} CharStaysQuiet(ts: seq<Token>, own: string, value: string, name: string)
    requires Stable(ts) && ts != [] && ts[0].Char? && CleanName(name)
    ensures !(Pattern(name) <= Render(Fill(ts, own, value)))
  {
    var s := Render(Fill(ts, own, value));
    HeadOfFill(ts, own, value);
    HeadOfRender(Fill(ts, own, value));
    assert s == Head(ts) + s[|Head(ts)|..];
    InertExtends(Head(ts), s[|Head(ts)|..]);
    PatternIsNotInert(s, name);
  }

  // ----- Both orders -----

  /** First the value that may contain its own placeholder, then another name. */
  lemma {:induction false} OwnFirst(ts: seq<Token>, a: Binding, b: Binding)
    requires Stable(ts) && CleanName(a.name) && CleanName(b.name) && a.name != b.name
    requires SettledBut(a.value, a.name)
    ensures ReplaceAll(Render(ts), [a, b]) == Substitute(ts, map[b.name := b.value, a.name := a.value])
  {
    var once := Fill(ts, a.name, a.value);
    var twice := Fill(once, b.name, b.value);
    TwoReplacements(Render(ts), a, b);
    StableIsQuiet(ts, a.name);
    ReplaceFills(ts, a.name, a.value);
    QuietFill(ts, a.name, a.value, b.name);
    ReplaceFills(once, b.name, b.value);
    SubstituteNothing(twice);
    FillThenSubstitute(once, b.name, b.value, map[]);
    FillThenSubstitute(ts, a.name, a.value, map[b.name := b.value]);
    assert map[b.name := b.value][a.name := a.value] == map[b.name := b.value, a.name := a.value];
  }

  lemma {:induction false} OwnLast(ts: seq<Token>, a: Binding, b: Binding)
    requires Stable(ts) && CleanName(a.name) && CleanName(b.name) && a.name != b.name && Settled(b.value)
    ensures ReplaceAll(Render(ts), [b, a]) == Substitute(ts, map[b.name := b.value, a.name := a.value])
  {
    SettledIsSettledBut(b.value, b.name);
    OwnFirst(ts, b, a);
    assert map[a.name := a.value, b.name := b.value] == map[b.name := b.value, a.name := a.value];
  }

  /** Whatever the template and the other variable are, its place does not matter. */
  ghost predicate OrderNeverShows(a: Binding) {
    forall ts: seq<Token>, b: Binding |
      Unambiguous(ts) && CleanName(b.name) && b.name != a.name && Settled(b.value) ::
      ReplaceAll(Render(ts), [a, b]) == ReplaceAll(Render(ts), [b, a])
  }

  // ----- A value that shows the order -----

  /** A clean name other than `own`. */
  function Longer(name: string, own: string): (other: string)
    requires CleanName(name)
    ensures CleanName(other) && other != own && name <= other
  {
    if name == own then name + "x" else name
  }

  /** Text that is neither inert nor the own placeholder begins that of another name, or some
      continuation of it does. */
  lemma BeginsOther(s: string, own: string) returns (name: string, rest: string)
    requires s != "" && !Inert(s) && !(Pattern(own) <= s)
    ensures CleanName(name) && name != own && '$' !in rest && Pattern(name) <= s + rest
  {
    if |s| == 1 {
      name := Longer("", own);
      rest := "{" + name + "}";
      assert s + rest == Pattern(name);
    } else {
      var n := NameLength(s[2..]);
      var begun := s[2..][..n];
      if n == |s| - 2 {
        name := Longer(begun, own);
        rest := name[n..] + "}";
        assert name == begun + name[n..];
        assert s + rest == Pattern(name);
      } else {
        name, rest := begun, "";
        assert s == Pattern(name) + s[3 + n..];
      }
    }
  }

  lemma {:induction false} NotSettledBut(value: string, own: string) returns (name: string, rest: string)
    requires !SettledBut(value, own)
    ensures CleanName(name) && name != own && '$' !in rest && Contains(value + rest, Pattern(name))
  {
    if Inert(value) || Pattern(own) <= value {
      name, rest := NotSettledBut(value[1..], own);
      assert (value + rest)[1..] == value[1..] + rest;
    } else {
      name, rest := BeginsOther(value, own);
    }
  }

  lemma TwoInEnvironment(a: Binding, b: Binding)
    ensures Environment([a, b]) == map[b.name := b.value, a.name := a.value]
  {
    assert [a, b][1..] == [b] && [b][1..] == [];
    assert Environment([b]) == Environment([])[b.name := b.value] == map[b.name := b.value];
    assert Environment([a, b]) == Environment([b])[a.name := a.value];
  }

  lemma UnsettledShowsOrder(a: Binding)
    requires CleanName(a.name) && !SettledBut(a.value, a.name)
    ensures !OrderNeverShows(a)
  {
    var name, rest := NotSettledBut(a.value, a.name);
    var ts, b := [Placeholder(a.name)] + Chars(rest), Binding(name, "");
    FilledBefore(a.name, a.value, rest, b);
    Removes(a.value + rest, Pattern(name));
    UnambiguousIsStable(ts);
    OwnLast(ts, a, b);
    TwoInEnvironment(a, b);
    assert ReplaceAll(Render(ts), [a, b]) != ReplaceAll(Render(ts), [b, a]);
  }

  /** The place of a variable never shows, in any template and against any other variable with a
      settled value, if and only if its value is settled but for its own placeholder. */
  lemma OrderNeverShowsIffSettledBut(a: Binding)
    requires CleanName(a.name)
    ensures OrderNeverShows(a) <==> SettledBut(a.value, a.name)
  {
    if SettledBut(a.value, a.name) {
      forall ts: seq<Token>, b: Binding |
        Unambiguous(ts) && CleanName(b.name) && b.name != a.name && Settled(b.value)
        ensures ReplaceAll(Render(ts), [a, b]) == ReplaceAll(Render(ts), [b, a])
      {
        UnambiguousIsStable(ts);
        OwnFirst(ts, a, b);
        OwnLast(ts, a, b);
      }
    } else {
      UnsettledShowsOrder(a);
    }
  }
}

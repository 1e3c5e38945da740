/**
 What a key stands for. Names are joined with `:`, so different rules and metrics, or
 different series, can share a key; exactly when they do, and when they cannot.
 */
module AlertKeys {
  import opened Anomalies
  import opened Alerts

  /** Joined at the first `c`, two texts can be told apart. */
  lemma SplitAt(c: char, a: string, b: string, a': string, b': string)
    requires c !in a && c !in a'
    requires a + [c] + b == a' + [c] + b'
    ensures a == a' && b == b'
  {
    var s, s' := a + [c] + b, a' + [c] + b';
    assert s[|a|] == c && s'[|a'|] == c;
    assert |a| <= |a'| by {
      assert forall i :: 0 <= i < |a| ==> s[i] == a[i] && a[i] in a;
    }
    assert |a'| <= |a| by {
      assert forall i :: 0 <= i < |a'| ==> s'[i] == a'[i] && a'[i] in a';
    }
    assert a == s[..|a|] && b == s[|a| + 1..];
    assert a' == s'[..|a'|] && b' == s'[|a'| + 1..];
  }

  // ----- Alert keys -----

  /** `x'` is `x` and a part of `z` before one of its colons; `z'` is what follows that colon. */
  predicate Overlap(x: string, z: string, x': string, z': string) {
    && |x| < |x'|
    && x' == x + ":" + x'[|x| + 1..]
    && z == x'[|x| + 1..] + ":" + z'
  }

  lemma OverlapJoins(x: string, z: string, x': string, z': string)
    requires |x| < |x'|
    ensures x + ":" + z == x' + ":" + z' <==> Overlap(x, z, x', z')
  {
    var w := x'[|x| + 1..];
    if Overlap(x, z, x', z') {
      assert x + ":" + z == (x + ":" + w) + ":" + z';
    }
    if x + ":" + z == x' + ":" + z' {
      var s := x + ":" + z;
      assert x' == s[..|x'|] && s[|x|] == ':';
      assert x' == x'[..|x|] + [x'[|x|]] + w;
      assert z == s[|x| + 1..] && z == s[|x| + 1..|x'|] + s[|x'|..];
      assert w == s[|x| + 1..|x'|] && ":" + z' == s[|x'|..];
    }
  }

  /** Two rules and metrics share a key if and only if the names agree, or overlap at a colon. */
  lemma KeysShareIff(r: Rule, m: Metric, r': Rule, m': Metric)
    ensures KeyOf(r, m) == KeyOf(r', m') <==>
            || (r.name == r'.name && m.name == m'.name)
            || Overlap(r.name, m.name, r'.name, m'.name)
            || Overlap(r'.name, m'.name, r.name, m.name)
  {
    if |r.name| < |r'.name| {
      OverlapJoins(r.name, m.name, r'.name, m'.name);
    } else if |r'.name| < |r.name| {
      OverlapJoins(r'.name, m'.name, r.name, m.name);
    } else {
      SameLengthJoins(r.name, m.name, r'.name, m'.name);
    }
  }

  lemma SameLengthJoins(x: string, z: string, x': string, z': string)
    requires |x| == |x'|
    ensures x + ":" + z == x' + ":" + z' <==> x == x' && z == z'
  {
    var s, s' := x + ":" + z, x' + ":" + z';
    assert s[..|x|] == x && s[|x| + 1..] == z;
    assert s'[..|x|] == x' && s'[|x| + 1..] == z';
  }

  /** Without a colon in rule names, or without one in metric names, the key determines both. */
  lemma KeyDeterminesRule(r: Rule, m: Metric, r': Rule, m': Metric)
    requires KeyOf(r, m) == KeyOf(r', m')
    requires (':' !in r.name && ':' !in r'.name) || (':' !in m.name && ':' !in m'.name)
    ensures r.name == r'.name && m.name == m'.name
  {
    KeysShareIff(r, m, r', m');
    OverlapHasColons(r.name, m.name, r'.name, m'.name);
    OverlapHasColons(r'.name, m'.name, r.name, m.name);
  }

  lemma OverlapHasColons(x: string, z: string, x': string, z': string)
    ensures Overlap(x, z, x', z') ==> ':' in x' && ':' in z
  {
    if Overlap(x, z, x', z') {
      assert x'[|x|] == ':' && z[|x'| - |x| - 1] == ':';
    }
  }

  /** Keys determine rules and metrics, if colons are allowed in rule names, in metric names. */
  ghost predicate KeysDetermine(inRules: bool, inMetrics: bool) {
    forall r: Rule, m: Metric, r': Rule, m': Metric |
      && (':' in r.name || ':' in r'.name ==> inRules) && (':' in m.name || ':' in m'.name ==> inMetrics)
      && KeyOf(r, m) == KeyOf(r', m') ::
      r.name == r'.name && m.name == m'.name
  }

  /** They do if and only if colons are kept out of one of the two. */
  lemma KeysDetermineIff(inRules: bool, inMetrics: bool)
    ensures KeysDetermine(inRules, inMetrics) <==> !(inRules && inMetrics)
  {
    if inRules && inMetrics {
      var a, m := Rule("x:y", "z", 0.0, Above, Warning, true), Metric("z", 1.0, []);
      var b, m' := Rule("x", "y:z", 0.0, Above, Warning, true), Metric("y:z", 1.0, []);
      assert KeyOf(a, m) == "x:y:z" == KeyOf(b, m');
      assert a.name != b.name;
      assert !KeysDetermine(inRules, inMetrics);
    } else {
      forall r: Rule, m: Metric, r': Rule, m': Metric |
        && (':' in r.name || ':' in r'.name ==> inRules) && (':' in m.name || ':' in m'.name ==> inMetrics)
        && KeyOf(r, m) == KeyOf(r', m')
        ensures r.name == r'.name && m.name == m'.name
      {
        KeyDeterminesRule(r, m, r', m');
      }
    }
  }

  /** With colons in both they may collide, and then one rule silences the other: the second metric
      triggers its rule and fires nothing. */
  lemma RulesMayCollide()
    ensures var a := Rule("x:y", "z", 0.0, Above, Warning, true);
            var b := Rule("x", "y:z", 0.0, Above, Warning, true);
            var m, m' := Metric("z", 1.0, []), Metric("y:z", 1.0, []);
            var fired := Attempt(EMPTY, RuleAlert(a, m, 1000.0));
            && KeyOf(a, m) == KeyOf(b, m')
            && |fired.records| == 1
            && Triggers(b, m') && Attempt(fired, RuleAlert(b, m', 1001.0)) == fired
  {
    var b, m' := Rule("x", "y:z", 0.0, Above, Warning, true), Metric("y:z", 1.0, []);
    assert OccursAt(m'.name, b.expression, 0);
  }

  // ----- Series keys -----

  /** No `=` in label keys and no colon in label values; a colon in a label key does no harm. */
  predicate PlainLabels(labels: seq<(string, string)>) {
    forall i :: 0 <= i < |labels| ==> '=' !in labels[i].0 && ':' !in labels[i].1
  }

  predicate PlainSeries(m: Metric) {
    ':' !in m.name && PlainLabels(m.labels)
  }

  /** What follows the `=` of the first label. */
  function AfterFirstKey(labels: seq<(string, string)>): string
    requires labels != []
  {
    if |labels| == 1 then labels[0].1 else labels[0].1 + [':'] + Joined(labels[1..])
  }

  lemma Regroup(k: string, v: string, rest: string)
    ensures k + "=" + v + ":" + rest == k + ['='] + (v + [':'] + rest)
    ensures k + "=" + v == k + ['='] + v
  {
  }

  lemma {:induction false} JoinedShape(labels: seq<(string, string)>)
    requires labels != [] && PlainLabels(labels)
    ensures Joined(labels) == labels[0].0 + ['='] + AfterFirstKey(labels)
    ensures ':' in AfterFirstKey(labels) <==> |labels| > 1
  {
    var (k, v) := labels[0];
    if |labels| == 1 {
      Regroup(k, v, "");
    } else {
      Regroup(k, v, Joined(labels[1..]));
      assert AfterFirstKey(labels)[|v|] == ':';
    }
  }

  lemma {:induction false} JoinedDetermines(a: seq<(string, string)>, b: seq<(string, string)>)
    requires PlainLabels(a) && PlainLabels(b) && Joined(a) == Joined(b)
    ensures a == b
    decreases |a|
  {
    if a != [] && b != [] {
      JoinedShape(a);
      JoinedShape(b);
      SplitAt('=', a[0].0, AfterFirstKey(a), b[0].0, AfterFirstKey(b));
      if |a| > 1 {
        SplitAt(':', a[0].1, Joined(a[1..]), b[0].1, Joined(b[1..]));
        JoinedDetermines(a[1..], b[1..]);
      }
      assert a == [a[0]] + a[1..] && b == [b[0]] + b[1..];
    }
  }

  /** With plain names the key determines the series: one window never mixes two of them. */
  lemma SeriesKeyDeterminesSeries(m: Metric, m': Metric)
    requires PlainSeries(m) && PlainSeries(m') && SeriesKey(m) == SeriesKey(m')
    ensures m.name == m'.name && m.labels == m'.labels
  {
    SplitAt(':', m.name, Joined(m.labels), m'.name, Joined(m'.labels));
    JoinedDetermines(m.labels, m'.labels);
  }

  /** Metrics with colons in names, `=` in label keys and colons in label values as allowed. */
  predicate Conforms(m: Metric, inNames: bool, inKeys: bool, inValues: bool) {
    && (':' in m.name ==> inNames)
    && forall i :: 0 <= i < |m.labels| ==> ('=' in m.labels[i].0 ==> inKeys) && (':' in m.labels[i].1 ==> inValues)
  }

  ghost predicate SeriesDetermined(inNames: bool, inKeys: bool, inValues: bool) {
    forall m: Metric, m': Metric |
      && Conforms(m, inNames, inKeys, inValues) && Conforms(m', inNames, inKeys, inValues)
      && SeriesKey(m) == SeriesKey(m') ::
      m.name == m'.name && m.labels == m'.labels
  }

  lemma JoinedOne(key: string, value: string)
    ensures Joined([(key, value)]) == key + "=" + value
  {
  }

  lemma JoinedTwo(a: (string, string), b: (string, string))
    ensures Joined([a, b]) == a.0 + "=" + a.1 + ":" + (b.0 + "=" + b.1)
  {
    assert [a, b][1..] == [b];
    JoinedOne(b.0, b.1);
  }

  /** Each of the three is enough for two series to share a window. */
  lemma SeriesMayCollide()
    ensures SeriesKey(Metric("n:b=c", 1.0, [("d", "e")])) == SeriesKey(Metric("n", 1.0, [("b", "c"), ("d", "e")]))
    ensures SeriesKey(Metric("n", 1.0, [("b=c", "d")])) == SeriesKey(Metric("n", 1.0, [("b", "c=d")]))
    ensures SeriesKey(Metric("n", 1.0, [("b", "c:d=e")])) == SeriesKey(Metric("n", 1.0, [("b", "c"), ("d", "e")]))
  {
    JoinedOne("d", "e");
    JoinedOne("b=c", "d");
    JoinedOne("b", "c=d");
    JoinedOne("b", "c:d=e");
    JoinedTwo(("b", "c"), ("d", "e"));
    assert "n:b=c" + ":" + "d=e" == "n" + ":" + "b=c:d=e";
  }

  /** The key of a window determines its series if and only if all three are kept out. */
  lemma SeriesDeterminedIff(inNames: bool, inKeys: bool, inValues: bool)
    ensures SeriesDetermined(inNames, inKeys, inValues) <==> !inNames && !inKeys && !inValues
  {
    SeriesMayCollide();
    if inNames {
      var m, m' := Metric("n:b=c", 1.0, [("d", "e")]), Metric("n", 1.0, [("b", "c"), ("d", "e")]);
      assert Conforms(m, inNames, inKeys, inValues) && Conforms(m', inNames, inKeys, inValues) && m.name != m'.name;
    } else if inKeys {
      var m, m' := Metric("n", 1.0, [("b=c", "d")]), Metric("n", 1.0, [("b", "c=d")]);
      assert m.labels[0] != m'.labels[0];
      assert Conforms(m, inNames, inKeys, inValues) && Conforms(m', inNames, inKeys, inValues);
    } else if inValues {
      var m, m' := Metric("n", 1.0, [("b", "c:d=e")]), Metric("n", 1.0, [("b", "c"), ("d", "e")]);
      assert |m.labels| != |m'.labels|;
      assert Conforms(m, inNames, inKeys, inValues) && Conforms(m', inNames, inKeys, inValues);
    } else {
      forall m: Metric, m': Metric |
        && Conforms(m, inNames, inKeys, inValues) && Conforms(m', inNames, inKeys, inValues)
        && SeriesKey(m) == SeriesKey(m')
        ensures m.name == m'.name && m.labels == m'.labels
      {
        SeriesKeyDeterminesSeries(m, m');
      }
    }
  }
}

/** What the content of a used template depends on, said of the request and the defaults. */
module FilledTemplates {
  import opened Placeholders
  import opened Templates

  /** The text that a variable stands for: what the request gives, else the default, else
      nothing. */
  predicate StandsFor(v: TemplateVariable, given: map<string, string>, text: string) {
    && (v.name in given ==> text == given[v.name])
    && (v.name !in given && v.default.Some? ==> text == v.default.value)
    && (v.name !in given && v.default.None? ==> text == "")
  }

  lemma BindingsStandFor(variables: seq<TemplateVariable>, given: map<string, string>)
    ensures var bindings := Bindings(variables, given);
            forall i :: 0 <= i < |variables| ==>
              bindings[i].name == variables[i].name && StandsFor(variables[i], given, bindings[i].value)
  {
  }

  /** The request decides: the default of a variable that it gives does not matter, nor does
      what it gives beyond the declared variables. */
  lemma DependsOnlyOnValues(template: string, a: seq<TemplateVariable>, b: seq<TemplateVariable>,
                            given: map<string, string>, given': map<string, string>)
    requires |a| == |b|
    requires forall i :: 0 <= i < |a| ==>
      && a[i].name == b[i].name
      && (a[i].name in given <==> a[i].name in given')
      && (a[i].name in given ==> given[a[i].name] == given'[a[i].name])
      && (a[i].name !in given ==> a[i].default == b[i].default)
    ensures Content(template, a, given) == Content(template, b, given')
  {
    assert Bindings(a, given) == Bindings(b, given');
  }

  /** A template that is one placeholder becomes exactly the text of its variable. */
  lemma OnePlaceholder(v: TemplateVariable, given: map<string, string>)
    ensures StandsFor(v, given, Content("${" + v.name + "}", [v], given))
  {
    var bindings := Bindings([v], given);
    BindingsStandFor([v], given);
    assert bindings[1..] == [];
    WholeReplaced(v.name, bindings[0].value);
    assert ReplaceAll(Pattern(v.name), bindings) == ReplaceAll(bindings[0].value, []);
  }

  /** No earlier variable has the name of variable `i`. */
  predicate First(variables: seq<TemplateVariable>, i: nat)
    requires i < |variables|
  {
    forall j :: 0 <= j < i ==> variables[j].name != variables[i].name
  }

  /** `env` gives each declared name, and no other, the text of the first variable so named. */
  ghost predicate Environs(env: map<string, string>, variables: seq<TemplateVariable>, given: map<string, string>) {
    && (forall n :: n in env ==> exists i :: 0 <= i < |variables| && variables[i].name == n)
    && forall i: nat | i < |variables| && First(variables, i) ::
         variables[i].name in env && StandsFor(variables[i], given, env[variables[i].name])
  }

  /** Clean names, and settled texts except for the last variable. */
  ghost predicate SettledVariables(variables: seq<TemplateVariable>, given: map<string, string>) {
    forall i :: 0 <= i < |variables| ==>
      && CleanName(variables[i].name)
      && (i < |variables| - 1 ==> forall text | StandsFor(variables[i], given, text) :: Settled(text))
  }

  lemma {:induction false} FirstWins(bindings: seq<Binding>, i: nat)
    requires i < |bindings| && forall j :: 0 <= j < i ==> bindings[j].name != bindings[i].name
    ensures bindings[i].name in Environment(bindings)
    ensures Environment(bindings)[bindings[i].name] == bindings[i].value
    decreases i
  {
    if i > 0 {
      assert forall j :: 0 < j < |bindings| ==> bindings[j] == bindings[1..][j - 1];
      FirstWins(bindings[1..], i - 1);
    }
  }

  lemma {:induction false} OnlyDeclared(bindings: seq<Binding>, n: string) returns (i: nat)
    requires n in Environment(bindings)
    ensures i < |bindings| && bindings[i].name == n
    decreases |bindings|
  {
    if bindings[0].name == n {
      i := 0;
    } else {
      i := OnlyDeclared(bindings[1..], n);
      i := i + 1;
    }
  }

  lemma EnvironmentEnvirons(variables: seq<TemplateVariable>, given: map<string, string>)
    ensures Environs(Environment(Bindings(variables, given)), variables, given)
  {
    var bindings := Bindings(variables, given);
    BindingsStandFor(variables, given);
    forall i: nat | i < |variables| && First(variables, i)
      ensures variables[i].name in Environment(bindings)
      ensures StandsFor(variables[i], given, Environment(bindings)[variables[i].name])
    {
      FirstWins(bindings, i);
    }
    forall n | n in Environment(bindings) ensures exists i :: 0 <= i < |variables| && variables[i].name == n {
      var i := OnlyDeclared(bindings, n);
      assert variables[i].name == n;
    }
  }

  lemma {:induction false} FirstNamed(variables: seq<TemplateVariable>, k: nat) returns (i: nat)
    requires k < |variables|
    ensures i <= k && variables[i].name == variables[k].name && First(variables, i)
    decreases k
  {
    if First(variables, k) {
      i := k;
    } else {
      var j: nat :| j < k && variables[j].name == variables[k].name;
      i := FirstNamed(variables, j);
    }
  }

  lemma EnvironsWithin(a: map<string, string>, b: map<string, string>, variables: seq<TemplateVariable>,
                       given: map<string, string>, n: string)
    requires Environs(a, variables, given) && Environs(b, variables, given) && n in a
    ensures n in b && a[n] == b[n]
  {
    var k :| 0 <= k < |variables| && variables[k].name == n;
    var i := FirstNamed(variables, k);
    assert StandsFor(variables[i], given, a[n]) && StandsFor(variables[i], given, b[n]);
  }

  lemma EnvironsUniquely(a: map<string, string>, b: map<string, string>, variables: seq<TemplateVariable>,
                         given: map<string, string>)
    requires Environs(a, variables, given) && Environs(b, variables, given)
    ensures a == b
  {
    forall n | n in a ensures n in b && a[n] == b[n] {
      EnvironsWithin(a, b, variables, given, n);
    }
    forall n | n in b ensures n in a {
      EnvironsWithin(b, a, variables, given, n);
    }
  }

  lemma {:induction false} SettledVariablesAreSettled(variables: seq<TemplateVariable>, given: map<string, string>)
    requires SettledVariables(variables, given)
    ensures SettledBindings(Bindings(variables, given))
    decreases |variables|
  {
    if variables != [] {
      BindingsStandFor(variables, given);
      assert Bindings(variables, given)[1..] == Bindings(variables[1..], given);
      assert forall i :: 0 < i < |variables| ==> variables[i] == variables[1..][i - 1];
      SettledVariablesAreSettled(variables[1..], given);
    }
  }

  /** With settled texts, the content of an unambiguous template is one simultaneous
      substitution of what the variables stand for. */
  lemma {:induction false} ContentIsSubstitution(template: string, variables: seq<TemplateVariable>,
                                                 given: map<string, string>, env: map<string, string>)
    requires Tokenise(template).Some? && SettledVariables(variables, given) && Environs(env, variables, given)
    ensures Content(template, variables, given) == Substitute(Tokenise(template).value, env)
  {
    var bindings := Bindings(variables, given);
    SettledVariablesAreSettled(variables, given);
    SequentialIsSimultaneous(template, bindings);
    EnvironmentEnvirons(variables, given);
    EnvironsUniquely(env, Environment(bindings), variables, given);
  }
}

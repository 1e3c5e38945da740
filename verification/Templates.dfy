/** The template store and its `use` operation. */
module Templates {
  import opened OrderedDict
  import opened Placeholders

  datatype TemplateVariable = TemplateVariable(name: string, default: Option<string>, required: bool)

  datatype Response =
    | Created(name: string, description: string, content: string, scriptType: string, tags: seq<string>)
    | NotFound
    | MissingVariable(name: string)

  /** The value of a variable: the given one, else the default, else nothing. */
  function BindingOf(v: TemplateVariable, given: map<string, string>): Binding {
    Binding(v.name,
            if v.name in given then given[v.name]
            else match v.default case Some(d) => d case None => "")
  }

  function Bindings(variables: seq<TemplateVariable>, given: map<string, string>): (bindings: seq<Binding>)
    ensures |bindings| == |variables|
  {
    seq(|variables|, i requires 0 <= i < |variables| => BindingOf(variables[i], given))
  }

  /** The template with its variables replaced, one after the other. */
  function Content(template: string, variables: seq<TemplateVariable>, given: map<string, string>): string {
    ReplaceAll(template, Bindings(variables, given))
  }

  class ScriptTemplate {
    const name: string
    const scriptType: string
    const templateContent: string
    const variables: seq<TemplateVariable>
    const tags: seq<string>
    var downloads: int

    constructor (name: string, scriptType: string, templateContent: string, variables: seq<TemplateVariable>,
                 tags: seq<string>, downloads: int)
      ensures this.name == name && this.scriptType == scriptType && this.templateContent == templateContent
      ensures this.variables == variables && this.tags == tags && this.downloads == downloads
    {
      this.name, this.scriptType, this.templateContent := name, scriptType, templateContent;
      this.variables, this.tags, this.downloads := variables, tags, downloads;
    }
  }

  class TemplateStore {
    var templates: map<int, ScriptTemplate>

    constructor ()
      ensures templates == map[]
    {
      templates := map[];
    }

    /** Refuses an unknown template and the first variable that is missing; otherwise fills
        the template and counts one download. */
    method UseTemplate(id: int, given: map<string, string>, scriptName: Option<string>) returns (response: Response)
      modifies if id in templates then {templates[id]} else {}
      ensures id !in templates ==> response == NotFound
      ensures id in templates ==>
        var t := templates[id];
        match response
        case NotFound => false
        case MissingVariable(name) =>
          && t.downloads == old(t.downloads)
          && exists i :: && 0 <= i < |t.variables| && t.variables[i].name == name
                         && t.variables[i].required && name !in given && t.variables[i].default.None?
                         && forall j :: 0 <= j < i && t.variables[j].required ==>
                              t.variables[j].name in given || t.variables[j].default.Some?
        case Created(name, description, content, scriptType, tags) =>
          && t.downloads == old(t.downloads) + 1
          && (forall v :: v in t.variables && v.required ==> v.name in given || v.default.Some?)
          && content == Content(t.templateContent, t.variables, given)
          && name == (if scriptName.Some?
                      && scriptName.value != "" then scriptName.value else "From template: " + t.name)
          && description == "Created from template: " + t.name
          && scriptType == t.scriptType && tags == t.tags
    {
      if id !in templates {
        return NotFound;
      }
      var template := templates[id];
      for i := 0 to |template.variables|
        invariant forall j :: 0 <= j < i && template.variables[j].required ==>
                    template.variables[j].name in given || template.variables[j].default.Some?
      {
        var v := template.variables[i];
        if v.required && v.name !in given {
          if v.default.None? {
            return MissingVariable(v.name);
          }
        }
      }
      var content := template.templateContent;
      ghost var bindings := Bindings(template.variables, given);
      for i := 0 to |template.variables|
        invariant ReplaceAll(content, bindings[i..]) == ReplaceAll(template.templateContent, bindings)
      {
        var v := template.variables[i];
        var value := if v.name in given then given[v.name]
                     else match v.default case Some(d) => d case None => "";
        assert bindings[i..][1..] == bindings[i + 1..];
        content := Replace(content, Pattern(v.name), value);
      }
      template.downloads := template.downloads + 1;
      var name := if scriptName.Some? && scriptName.value != "" then scriptName.value
                  else "From template: " + template.name;
      response := Created(name, "Created from template: " + template.name, content, template.scriptType, template.tags);
    }
  }
}

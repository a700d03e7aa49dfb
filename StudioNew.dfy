/** The new-template page (app/dashboard/studio/new/page.js): the preset
    table, the preset picker, and `handleSubmit`, which sends the selected
    preset's sections as the template config to the `createTemplate` server
    action (whose outcome is a parameter) and then toasts and navigates. */
module StudioNew {
  import opened Js
  import StudioRenderer
  import Studio
  import Records

  /** An entry of `PRESETS`. */
  datatype Preset = Preset(id: string, name: string, description: string, sections: seq<JsValue>)

  /** `{ type: kind, content }` */
  function Section(kind: string, content: map<string, JsValue>): JsValue {
    JObj(map["type" := JStr(kind), "content" := JObj(content)])
  }

  /** `PRESETS` */
  const Presets: seq<Preset> := [
    Preset("empty", "Blank Canvas", "Start from scratch and add sections manually.", []),
    Preset("basic", "Basic Portfolio", "A clean layout with a Hero, Skills, and Resume sections.", [
      Section("hero", map["title" := JStr("Professional Identity"), "subtitle" := JStr("Designer & Developer")]),
      Section("resume_snapshot", map[]),
      Section("portfolio_links", map["links" := JArr([])])]),
    Preset("showcase", "Full Showcase", "Maximum impact with Gallery, Testimonials, and full Resume.", [
      Section("hero", map["title" := JStr("Featured Work"), "subtitle" := JStr("Full Project Showcase")]),
      Section("gallery", map["images" := JArr([])]),
      Section("testimonials", map["items" := JArr([])]),
      Section("resume_snapshot", map[])])
  ]

  /** The initial selection. */
  const DefaultPreset: string := "empty"

  /** The preset ids are distinct, so a selection names one preset. */
  lemma PresetIdsDistinct()
    ensures forall i, j :: 0 <= i < j < |Presets| ==> Presets[i].id != Presets[j].id
  {
    assert Presets[0].id[0] == 'e' && Presets[1].id[0] == 'b' && Presets[2].id[0] == 's';
  }

  /** `PRESETS.find(p => p.id === id)`, as an index. */
  function FindPreset(ps: seq<Preset>, id: string): (r: Option<nat>)
    ensures r.Some? ==> r.value < |ps| && ps[r.value].id == id
    ensures r.None? ==> forall i :: 0 <= i < |ps| ==> ps[i].id != id
    decreases |ps|
  {
    if ps == [] then None
    else if ps[0].id == id then Some(0)
    else
      var rest := FindPreset(ps[1..], id);
      assert forall i :: 1 <= i < |ps| ==> ps[i] == ps[1..][i - 1];
      match rest
      case None => None
      case Some(k) => Some(k + 1)
  }

  /** Like `find`, the lookup returns the first preset with the id. */
  lemma {:induction false} FindPresetFirst(ps: seq<Preset>, id: string, j: nat)
    requires FindPreset(ps, id).Some? && j < FindPreset(ps, id).value
    ensures ps[j].id != id
    decreases |ps|
  {
    if ps[0].id != id && j > 0 {
      FindPresetFirst(ps[1..], id, j - 1);
    }
  }

  /** Looking up a preset's own id finds that preset. */
  lemma FindEachPreset(i: nat)
    requires i < |Presets|
    ensures FindPreset(Presets, Presets[i].id) == Some(i)
  {
    PresetIdsDistinct();
  }

  /** The default selection is the blank preset, which has no sections. */
  lemma DefaultPresetIsBlank()
    ensures FindPreset(Presets, DefaultPreset) == Some(0)
    ensures Presets[0].sections == []
  {
  }

  /** `{ sections: preset.sections }`, the config sent with the form. */
  function SubmittedConfig(p: Preset): (config: JsValue)
    ensures GetOpt(config, "sections") == JArr(p.sections)
  {
    JObj(map["sections" := JArr(p.sections)])
  }

  /** The shape every preset section has: a dispatched `type`, a hero with
      string title and subtitle, or a list section whose list is empty. */
  predicate PresetShaped(s: JsValue) {
    && s.JObj? && s.fields.Keys == {"type", "content"}
    && s.fields["type"].JStr? && s.fields["type"].s in StudioRenderer.Kinds
    && s.fields["content"].JObj?
    && var kind := s.fields["type"].s;
       var content := s.fields["content"].fields;
       && (kind == "hero" ==>
             "title" in content && content["title"].JStr? && "subtitle" in content && content["subtitle"].JStr?)
       && (kind != "hero" && kind != "resume_snapshot" ==>
             StudioRenderer.ListKey(kind) in content && content[StudioRenderer.ListKey(kind)] == JArr([]))
  }

  lemma PresetsShaped(i: nat, j: nat)
    requires i < |Presets| && j < |Presets[i].sections|
    ensures PresetShaped(Presets[i].sections[j])
  {
    if i == 1 {
      assert j == 0 || j == 1 || j == 2;
    } else {
      assert i == 2 && (j == 0 || j == 1 || j == 2 || j == 3);
    }
  }

  /** A section of that shape renders: its type is dispatched, a content
      section renders its component and never null, a snapshot section the
      snapshot of the resume data. */
  lemma ShapedSectionRenders(s: JsValue, resumeData: JsValue)
    requires PresetShaped(s)
    ensures && (exists k :: k in StudioRenderer.Kinds && Get(s, "type") == Some(JStr(k)))
            && (Get(s, "type") == Some(JStr("resume_snapshot")) ==>
                  StudioRenderer.RenderSection(s, resumeData) == StudioRenderer.RenderSnapshot(resumeData))
            && (Get(s, "type") != Some(JStr("resume_snapshot")) ==>
                  StudioRenderer.RenderSection(s, resumeData).Ok? &&
                  StudioRenderer.RenderSection(s, resumeData).value != StudioRenderer.NullNode)
  {
    var kind := s.fields["type"].s;
    assert Get(s, "type") == Some(JStr(kind));
    if kind != "resume_snapshot" {
      var content := s.fields["content"].fields;
      assert s == JObj(map["type" := JStr(kind), "content" := JObj(content)]);
      if kind == "hero" {
        assert Get(JObj(content), "title").value.JStr? && Get(JObj(content), "subtitle").value.JStr?;
      } else {
        assert StudioRenderer.MapItems(JArr([]), StudioRenderer.ItemFields(kind)).Ok?;
      }
      assert StudioRenderer.ContentRenders(kind, JObj(content));
      StudioRenderer.ContentKindsRender(kind, content, resumeData);
    }
  }

  /** Every preset section has a type the renderer dispatches; the content
      sections render their component, never null, and the snapshot sections
      render the snapshot of the resume data. */
  lemma PresetSectionsRender(i: nat, j: nat, resumeData: JsValue)
    requires i < |Presets| && j < |Presets[i].sections|
    ensures var s := Presets[i].sections[j];
            && (exists k :: k in StudioRenderer.Kinds && Get(s, "type") == Some(JStr(k)))
            && (Get(s, "type") == Some(JStr("resume_snapshot")) ==>
                  StudioRenderer.RenderSection(s, resumeData) == StudioRenderer.RenderSnapshot(resumeData))
            && (Get(s, "type") != Some(JStr("resume_snapshot")) ==>
                  StudioRenderer.RenderSection(s, resumeData).Ok? &&
                  StudioRenderer.RenderSection(s, resumeData).value != StudioRenderer.NullNode)
  {
    PresetsShaped(i, j);
    ShapedSectionRenders(Presets[i].sections[j], resumeData);
  }

  /** A template created from a preset is rendered section by section (with
      no resume data the snapshot sections render null, the others never),
      and the studio index counts its sections. */
  lemma CreatedTemplateRenders(i: nat)
    requires i < |Presets|
    ensures var config := SubmittedConfig(Presets[i]);
            && Studio.SectionCount(config) == JNum(|Presets[i].sections|)
            && StudioRenderer.RenderStudio(config, JNull).Ok?
            && StudioRenderer.RenderStudio(config, JNull).value.Some?
            && var nodes := StudioRenderer.RenderStudio(config, JNull).value.value;
               |nodes| == |Presets[i].sections| &&
               forall j :: 0 <= j < |nodes| ==>
                 (nodes[j] == StudioRenderer.NullNode <==>
                    Get(Presets[i].sections[j], "type") == Some(JStr("resume_snapshot")))
  {
    var sections := Presets[i].sections;
    var config := SubmittedConfig(Presets[i]);
    forall j | 0 <= j < |sections|
      ensures StudioRenderer.RenderSection(sections[j], JNull).Ok?
      ensures StudioRenderer.RenderSection(sections[j], JNull).value == StudioRenderer.NullNode <==>
                Get(sections[j], "type") == Some(JStr("resume_snapshot"))
    {
      PresetSectionsRender(i, j, JNull);
    }
    var all := StudioRenderer.RenderAll(sections, JNull);
    assert all.Ok?;
  }

  /** How the awaited `createTemplate(formData)` ends. */
  datatype SubmitOutcome = Returned(result: JsValue) | Threw

  const CreateFailed: Records.Toast := Records.Failure(JStr("Failed to initialize design"))
  const Created: Records.Toast := Records.Success(JStr("Design initialized in Studio"))

  /** The page's state. `route` is the last `router.push` target. */
  class NewTemplatePage {
    var selected: string
    var loading: bool
    var toasts: seq<Records.Toast>
    var route: Option<string>

    /** The selection always names a preset: it starts at one and the cards
        only ever set one. */
    ghost predicate Valid()
      reads this
    {
      FindPreset(Presets, selected).Some?
    }

    constructor()
      ensures Valid() && selected == DefaultPreset && !loading && toasts == [] && route.None?
    {
      selected := DefaultPreset;
      loading := false;
      toasts := [];
      route := None;
    }

    /** Clicking preset card `i` selects it and changes nothing else. */
    method SelectPreset(i: nat)
      requires i < |Presets|
      modifies this`selected
      ensures Valid() && selected == Presets[i].id
    {
      selected := Presets[i].id;
      FindEachPreset(i);
    }

    /** `handleSubmit(e)`: sends the selected preset's config. A thrown call
        toasts a failure; an `error` result toasts its message; otherwise a
        success toast and navigation to the new template, except that a null
        or undefined result throws at `result.id` after the success toast.
        Loading is off afterwards in every case. */
    method HandleSubmit(outcome: SubmitOutcome) returns (config: JsValue)
      requires Valid()
      modifies this`loading, this`toasts, this`route
      ensures Valid() && !loading
      ensures config == SubmittedConfig(Presets[FindPreset(Presets, selected).value])
      ensures outcome == Threw ==> toasts == old(toasts) + [CreateFailed] && route == old(route)
      ensures outcome.Returned? && Truthy(GetOpt(outcome.result, "error")) ==>
                toasts == old(toasts) + [Records.Failure(GetOpt(outcome.result, "message"))] &&
                route == old(route)
      ensures outcome.Returned? && !Truthy(GetOpt(outcome.result, "error")) && !IsNullish(outcome.result) ==>
                toasts == old(toasts) + [Created] &&
                route == Some("/dashboard/studio/" + StringOf(GetOpt(outcome.result, "id")))
      ensures outcome.Returned? && IsNullish(outcome.result) ==>
                toasts == old(toasts) + [Created, CreateFailed] && route == old(route)
    {
      loading := true;
      config := SubmittedConfig(Presets[FindPreset(Presets, selected).value]);
      var added: seq<Records.Toast>;
      var target := route;
      match outcome {
        case Threw =>
          added := [CreateFailed];
        case Returned(result) =>
          if Truthy(GetOpt(result, "error")) {
            added := [Records.Failure(GetOpt(result, "message"))];
          } else if IsNullish(result) {
            added := [Created, CreateFailed];
          } else {
            added := [Created];
            target := Some("/dashboard/studio/" + StringOf(GetOpt(result, "id")));
          }
      }
      toasts := toasts + added;
      route := target;
      loading := false;
    }
  }
}

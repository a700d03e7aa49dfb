/** The template renderer (components/StudioRenderer.js): a template config is
    arbitrary JSON; each entry of `config.sections` is dispatched on its `type`
    to one section component, in order. The gallery section signs the storage
    paths of its images; the signing call is a parameter. A read through null
    or undefined, or `.map`/`.slice` on a value without it, throws while
    rendering: an `Err`. */
module StudioRenderer {
  import opened Js

  /** What one section renders to. */
  datatype Node =
    | Hero(title: JsValue, subtitle: JsValue)
    | Gallery(content: JsValue)
    | PortfolioLinks(content: JsValue)
    | Testimonials(content: JsValue)
    | Snapshot(jobs: seq<JsValue>, skills: seq<JsValue>)
    | NullNode

  /** `content.title || "Identity"` */
  function HeroTitle(content: JsValue): (t: JsValue)
    requires !IsNullish(content)
    ensures Truthy(t)
    ensures Truthy(Get(content, "title").value) ==> t == Get(content, "title").value
    ensures !Truthy(Get(content, "title").value) ==> t == JStr("Identity")
  {
    var title := GetOpt(content, "title");
    if Truthy(title) then title else JStr("Identity")
  }

  /** `content.subtitle || "Professional Profile"` */
  function HeroSubtitle(content: JsValue): (t: JsValue)
    requires !IsNullish(content)
    ensures Truthy(t)
    ensures Truthy(Get(content, "subtitle").value) ==> t == Get(content, "subtitle").value
    ensures !Truthy(Get(content, "subtitle").value) ==> t == JStr("Professional Profile")
  {
    var subtitle := GetOpt(content, "subtitle");
    if Truthy(subtitle) then subtitle else JStr("Professional Profile")
  }

  /** A value React can render as a child: anything but a plain object (an
      object child throws); an array renders its elements. */
  predicate Renderable(v: JsValue)
    decreases v
  {
    match v
    case JObj(_) => false
    case JArr(items) => forall i :: 0 <= i < |items| ==> Renderable(items[i])
    case _ => true
  }

  /** One item of a mapped list: the callback reads its properties, so it must
      not be null or undefined, and each of `fields` is rendered as text. */
  predicate ItemRenders(item: JsValue, fields: seq<string>) {
    !IsNullish(item) && forall f :: f in fields ==> Renderable(GetOpt(item, f))
  }

  /** The `.map` callback over `items`, in order; the first item that throws
      aborts the render. */
  function MapEach(items: seq<JsValue>, fields: seq<string>): (r: Result<seq<JsValue>>)
    ensures r.Ok? ==> r.value == items
    ensures r.Ok? <==> forall i :: 0 <= i < |items| ==> ItemRenders(items[i], fields)
    decreases |items|
  {
    if items == [] then Ok([])
    else if !ItemRenders(items[0], fields) then Err("TypeError: cannot render item")
    else
      assert forall i :: 1 <= i < |items| ==> items[i] == items[1..][i - 1];
      var rest :- MapEach(items[1..], fields);
      Ok([items[0]] + rest)
  }

  /** `list?.map(item => ...)`: nothing for a null or undefined list; `.map`
      on any other value that is not an array throws. */
  function MapItems(list: JsValue, fields: seq<string>): (r: Result<seq<JsValue>>)
    ensures IsNullish(list) ==> r == Ok([])
    ensures r.Ok? && !IsNullish(list) ==> list.JArr? && r.value == list.items
    ensures r.Ok? <==>
              IsNullish(list) || (list.JArr? && forall i :: 0 <= i < |list.items| ==> ItemRenders(list.items[i], fields))
  {
    if IsNullish(list) then Ok([])
    else if !list.JArr? then Err("TypeError: map is not a function")
    else MapEach(list.items, fields)
  }

  /** What each job of the snapshot renders: `{job.role}`, `{job.company}` and
      `{job.dates}`. */
  const JobFields: seq<string> := ["role", "company", "dates"]

  /** `resumeData.experience?.slice(0, 3).map(...)`: at most the first three
      entries, in order; nothing when there is no experience. Entries after
      the third are never read. */
  function SnapshotJobs(resumeData: JsValue): (r: Result<seq<JsValue>>)
    requires Truthy(resumeData)
    ensures IsNullish(GetOpt(resumeData, "experience")) ==> r == Ok([])
    ensures r.Ok? && GetOpt(resumeData, "experience").JArr? ==>
              var all := GetOpt(resumeData, "experience").items;
              |r.value| == (if |all| < 3 then |all| else 3) && r.value == all[..|r.value|]
    ensures r.Err? <==>
              var experience := GetOpt(resumeData, "experience");
              !IsNullish(experience) &&
              (!experience.JArr? ||
               exists i :: 0 <= i < |experience.items| && i < 3 && !ItemRenders(experience.items[i], JobFields))
  {
    match GetOpt(resumeData, "experience")
    case JUndefined => Ok([])
    case JNull => Ok([])
    case JArr(items) =>
      var first := if |items| <= 3 then items else items[..3];
      assert forall i :: 0 <= i < |first| ==> first[i] == items[i];
      MapEach(first, JobFields)
    case _ => Err("TypeError: experience.slice(...).map is not a function")
  }

  /** `resumeData.skills?.map(skill => <span>{skill}</span>)`: all skills;
      nothing when there are none. */
  function SnapshotSkills(resumeData: JsValue): (r: Result<seq<JsValue>>)
    requires Truthy(resumeData)
    ensures IsNullish(GetOpt(resumeData, "skills")) ==> r == Ok([])
    ensures r.Ok? && GetOpt(resumeData, "skills").JArr? ==> r == Ok(GetOpt(resumeData, "skills").items)
    ensures r.Err? <==>
              var skills := GetOpt(resumeData, "skills");
              !IsNullish(skills) &&
              (!skills.JArr? || exists i :: 0 <= i < |skills.items| && !Renderable(skills.items[i]))
  {
    match GetOpt(resumeData, "skills")
    case JUndefined => Ok([])
    case JNull => Ok([])
    case JArr(items) =>
      if forall i :: 0 <= i < |items| ==> Renderable(items[i]) then Ok(items)
      else Err("Error: objects are not valid as a React child")
    case _ => Err("TypeError: skills.map is not a function")
  }

  /** `ResumeSnapshotSection`: renders null without resume data. */
  function RenderSnapshot(resumeData: JsValue): (r: Result<Node>)
    ensures r == Ok(NullNode) <==> !Truthy(resumeData)
    ensures Truthy(resumeData) ==> (r.Ok? <==> SnapshotJobs(resumeData).Ok? && SnapshotSkills(resumeData).Ok?)
    ensures Truthy(resumeData) && SnapshotJobs(resumeData).Ok? && SnapshotSkills(resumeData).Ok? ==>
              r == Ok(Snapshot(SnapshotJobs(resumeData).value, SnapshotSkills(resumeData).value))
  {
    if !Truthy(resumeData) then Ok(NullNode)
    else
      var jobs :- SnapshotJobs(resumeData);
      var skills :- SnapshotSkills(resumeData);
      Ok(Snapshot(jobs, skills))
  }

  /** The section types the renderer dispatches. */
  const Kinds: seq<string> := ["hero", "gallery", "portfolio_links", "testimonials", "resume_snapshot"]

  /** The types whose component renders the section's `content`. */
  const ContentKinds: seq<string> := ["hero", "gallery", "portfolio_links", "testimonials"]

  /** The list a list section maps over. */
  function ListKey(kind: string): string {
    if kind == "gallery" then "images" else if kind == "portfolio_links" then "links" else "items"
  }

  /** The item fields a list section renders as text (a link's `url` is an
      attribute; a gallery tile reads `id` and `path` but renders neither). */
  function ItemFields(kind: string): seq<string> {
    if kind == "portfolio_links" then ["label"]
    else if kind == "testimonials" then ["text", "author", "role"]
    else []
  }

  /** The component of a content kind renders `content` without throwing. */
  predicate ContentRenders(kind: string, content: JsValue)
    requires !IsNullish(content)
  {
    if kind == "hero" then Renderable(HeroTitle(content)) && Renderable(HeroSubtitle(content))
    else MapItems(GetOpt(content, ListKey(kind)), ItemFields(kind)).Ok?
  }

  /** The `switch (section.type)` of one section. */
  function RenderSection(section: JsValue, resumeData: JsValue): (r: Result<Node>)
    ensures IsNullish(section) ==> r.Err?
    ensures !IsNullish(section) && !(exists k :: k in Kinds && Get(section, "type") == Some(JStr(k))) ==>
              r == Ok(NullNode)
    ensures !IsNullish(section) && Get(section, "type") == Some(JStr("resume_snapshot")) ==>
              r == RenderSnapshot(resumeData)
    ensures !IsNullish(section) && Get(section, "type").value.JStr? && Get(section, "type").value.s in ContentKinds ==>
              var content := GetOpt(section, "content");
              (r.Ok? <==> !IsNullish(content) && ContentRenders(Get(section, "type").value.s, content))
  {
    var kind :- Prop(section, "type");
    var content := GetOpt(section, "content");  // section is known not to be nullish
    if kind == JStr("resume_snapshot") then RenderSnapshot(resumeData)
    else if !kind.JStr? || kind.s !in ContentKinds then Ok(NullNode)
    else if IsNullish(content) then Err("TypeError: cannot read properties of " + StringOf(content))
    else if !ContentRenders(kind.s, content) then Err("TypeError: cannot render " + kind.s)
    else if kind.s == "hero" then Ok(Hero(HeroTitle(content), HeroSubtitle(content)))
    else if kind.s == "gallery" then Ok(Gallery(content))
    else if kind.s == "portfolio_links" then Ok(PortfolioLinks(content))
    else Ok(Testimonials(content))
  }

  /** A section of one of the four content kinds, with an object as content,
      renders the matching component, never null, exactly when its component
      renders the content without throwing. */
  lemma ContentKindsRender(kind: string, content: map<string, JsValue>, resumeData: JsValue)
    requires kind in ContentKinds
    ensures var r := RenderSection(JObj(map["type" := JStr(kind), "content" := JObj(content)]), resumeData);
            && (r.Ok? <==> ContentRenders(kind, JObj(content)))
            && (r.Ok? ==>
                  && r.value != NullNode
                  && (kind == "hero" <==> r.value.Hero?)
                  && (kind == "gallery" <==> r.value == Gallery(JObj(content)))
                  && (kind == "portfolio_links" <==> r.value == PortfolioLinks(JObj(content)))
                  && (kind == "testimonials" <==> r.value == Testimonials(JObj(content))))
  {
    var section := JObj(map["type" := JStr(kind), "content" := JObj(content)]);
    assert Get(section, "type") == Some(JStr(kind));
    assert GetOpt(section, "content") == JObj(content);
  }

  /** A list section throws when its list is neither null, undefined nor an
      array, or when the list holds a null or undefined item. */
  lemma ListSectionThrows(kind: string, content: map<string, JsValue>, resumeData: JsValue)
    requires kind in ContentKinds && kind != "hero" && ListKey(kind) in content
    requires var list := content[ListKey(kind)];
             (!IsNullish(list) && !list.JArr?) ||
             (list.JArr? && exists i :: 0 <= i < |list.items| && IsNullish(list.items[i]))
    ensures RenderSection(JObj(map["type" := JStr(kind), "content" := JObj(content)]), resumeData).Err?
  {
    ContentKindsRender(kind, content, resumeData);
    assert GetOpt(JObj(content), ListKey(kind)) == content[ListKey(kind)];
  }

  /** A hero whose title or subtitle is a truthy object throws. */
  lemma ObjectTitleThrows(content: map<string, JsValue>, title: map<string, JsValue>, resumeData: JsValue)
    requires content == map["title" := JObj(title)] || content == map["subtitle" := JObj(title)]
    ensures RenderSection(JObj(map["type" := JStr("hero"), "content" := JObj(content)]), resumeData).Err?
  {
    ContentKindsRender("hero", content, resumeData);
  }

  /** The snapshot section ignores its own content: any two snapshot sections
      render the same. */
  lemma SnapshotIgnoresContent(s1: map<string, JsValue>, s2: map<string, JsValue>, resumeData: JsValue)
    requires "type" in s1 && "type" in s2
    requires s1["type"] == JStr("resume_snapshot") && s2["type"] == JStr("resume_snapshot")
    ensures RenderSection(JObj(s1), resumeData) == RenderSection(JObj(s2), resumeData)
  {
  }

  /** `sections.map(...)`: one output per section, in order; the first throw
      aborts the render. */
  function RenderAll(sections: seq<JsValue>, resumeData: JsValue): (r: Result<seq<Node>>)
    ensures r.Ok? ==> |r.value| == |sections|
    ensures r.Ok? ==> forall i :: 0 <= i < |sections| ==> RenderSection(sections[i], resumeData) == Ok(r.value[i])
    ensures r.Err? <==> exists i :: 0 <= i < |sections| && RenderSection(sections[i], resumeData).Err?
    decreases |sections|
  {
    if sections == [] then Ok([])
    else
      var head := RenderSection(sections[0], resumeData);
      var rest := RenderAll(sections[1..], resumeData);
      assert forall i :: 1 <= i < |sections| ==> sections[i] == sections[1..][i - 1];
      if head.Err? then Err(head.message)
      else if rest.Err? then
        var i :| 0 <= i < |sections[1..]| && RenderSection(sections[1..][i], resumeData).Err?;
        assert RenderSection(sections[i + 1], resumeData).Err?;
        Err(rest.message)
      else Ok([head.value] + rest.value)
  }

  /** `StudioRenderer({config, resumeData})`: `None` (renders nothing) when
      `config?.sections` is falsy; `.map` on a truthy non-array throws. */
  function RenderStudio(config: JsValue, resumeData: JsValue): (r: Result<Option<seq<Node>>>)
    ensures r == Ok(None) <==> !Truthy(GetOpt(config, "sections"))
    ensures r.Ok? && r.value.Some? ==>
              GetOpt(config, "sections").JArr? &&
              RenderAll(GetOpt(config, "sections").items, resumeData) == Ok(r.value.value)
    ensures Truthy(GetOpt(config, "sections")) && !GetOpt(config, "sections").JArr? ==> r.Err?
  {
    var sections := GetOpt(config, "sections");
    if !Truthy(sections) then Ok(None)
    else if !sections.JArr? then Err("TypeError: config.sections.map is not a function")
    else
      var nodes :- RenderAll(sections.items, resumeData);
      Ok(Some(nodes))
  }

  // ---------------------------------------------------------------------------
  // GallerySection: getLinks and the tiles
  // ---------------------------------------------------------------------------

  /** `data?.signedUrl` of the signing call for `img.path`, when the image has
      a truthy path and the call yields a truthy URL. */
  function SignedUrlOf(img: JsValue, sign: JsValue -> JsValue): (u: Option<JsValue>)
    requires !IsNullish(img)
    ensures u.Some? ==> Truthy(GetOpt(img, "path")) && Truthy(u.value)
  {
    var path := GetOpt(img, "path");
    if !Truthy(path) then None
    else
      var url := GetOpt(sign(path), "signedUrl");
      if Truthy(url) then Some(url) else None
  }

  /** The `urls` object after the loop has visited `images`; `None` when an
      image is null or undefined (`img.path` throws and the map is never set).
      A later image with the same id overwrites an earlier one. */
  function SignedUrls(images: seq<JsValue>, sign: JsValue -> JsValue): (r: Option<map<string, JsValue>>)
    ensures r.None? <==> exists i :: 0 <= i < |images| && IsNullish(images[i])
    decreases |images|
  {
    if images == [] then Some(map[])
    else
      var init := images[..|images| - 1];
      var img := images[|images| - 1];
      assert forall i :: 0 <= i < |init| ==> init[i] == images[i];
      match SignedUrls(init, sign)
      case None => None
      case Some(m) =>
        if IsNullish(img) then None
        else
          match SignedUrlOf(img, sign)
          case None => Some(m)
          case Some(u) => Some(m[StringOf(GetOpt(img, "id")) := u])
  }

  /** Every entry of the map comes from an image that has a path and whose
      signing returned that URL. */
  lemma {:induction false} SignedUrlsSound(images: seq<JsValue>, sign: JsValue -> JsValue, k: string)
    requires SignedUrls(images, sign).Some? && k in SignedUrls(images, sign).value
    ensures exists i :: 0 <= i < |images| && !IsNullish(images[i]) &&
              StringOf(GetOpt(images[i], "id")) == k &&
              SignedUrlOf(images[i], sign) == Some(SignedUrls(images, sign).value[k])
    decreases |images|
  {
    var init := images[..|images| - 1];
    var img := images[|images| - 1];
    var m := SignedUrls(init, sign).value;
    var u := SignedUrlOf(img, sign);
    if u.Some? && StringOf(GetOpt(img, "id")) == k {
      assert images[|images| - 1] == img;
    } else {
      assert k in m;
      SignedUrlsSound(init, sign, k);
      var i :| 0 <= i < |init| && !IsNullish(init[i]) && StringOf(GetOpt(init[i], "id")) == k &&
               SignedUrlOf(init[i], sign) == Some(m[k]);
      assert images[i] == init[i];
    }
  }

  /** Every image that has a path and a signed URL has an entry under its id. */
  lemma {:induction false} SignedUrlsComplete(images: seq<JsValue>, sign: JsValue -> JsValue, i: nat)
    requires SignedUrls(images, sign).Some? && i < |images|
    requires SignedUrlOf(images[i], sign).Some?
    ensures StringOf(GetOpt(images[i], "id")) in SignedUrls(images, sign).value
    decreases |images|
  {
    var init := images[..|images| - 1];
    if i < |images| - 1 {
      assert images[i] == init[i];
      SignedUrlsComplete(init, sign, i);
    }
  }

  /** What a tile shows. */
  datatype Tile = Picture(url: JsValue) | Placeholder(text: string)

  /** One gallery tile: the signed URL if there is one, otherwise "Loading..."
      for an image with a path and "Empty_Slot" for one without. */
  function TileOf(img: JsValue, urls: map<string, JsValue>): (t: Tile)
    requires !IsNullish(img)
    ensures t.Picture? <==> StringOf(GetOpt(img, "id")) in urls && Truthy(urls[StringOf(GetOpt(img, "id"))])
    ensures t == Placeholder("Loading...") <==> !t.Picture? && Truthy(GetOpt(img, "path"))
    ensures t == Placeholder("Empty_Slot") <==> !t.Picture? && !Truthy(GetOpt(img, "path"))
  {
    var key := StringOf(GetOpt(img, "id"));
    if key in urls && Truthy(urls[key]) then Picture(urls[key])
    else if Truthy(GetOpt(img, "path")) then Placeholder("Loading...")
    else Placeholder("Empty_Slot")
  }

  /** Once the links are loaded, an image whose signing succeeded shows its
      picture. */
  lemma SignedImageShowsPicture(images: seq<JsValue>, sign: JsValue -> JsValue, i: nat)
    requires SignedUrls(images, sign).Some? && i < |images|
    requires SignedUrlOf(images[i], sign).Some?
    ensures TileOf(images[i], SignedUrls(images, sign).value).Picture?
  {
    var m := SignedUrls(images, sign).value;
    var k := StringOf(GetOpt(images[i], "id"));
    SignedUrlsComplete(images, sign, i);
    SignedUrlsSound(images, sign, k);
  }

  /** `GallerySection`'s `signedUrls` state. */
  class GallerySection {
    var signedUrls: map<string, JsValue>

    constructor()
      ensures signedUrls == map[]
    {
      signedUrls := map[];
    }

    /** `getLinks()`: nothing happens when `content.images?.length` is falsy;
        otherwise the images are visited in order and the map is replaced by
        the one built, unless an image is null or undefined. A string of
        images has no paths, so its map is empty. */
    method GetLinks(content: JsValue, sign: JsValue -> JsValue)
      modifies this
      ensures var images := GetOpt(content, "images");
              images.JArr? && images.items != [] && SignedUrls(images.items, sign).Some? ==>
                signedUrls == SignedUrls(images.items, sign).value
      ensures var images := GetOpt(content, "images");
              images.JStr? && images.s != [] ==> signedUrls == map[]
      ensures var images := GetOpt(content, "images");
              !(images.JArr? && images.items != []) && !(images.JStr? && images.s != []) ==>
                signedUrls == old(signedUrls)
      ensures var images := GetOpt(content, "images");
              images.JArr? && SignedUrls(images.items, sign).None? ==> signedUrls == old(signedUrls)
    {
      var images := GetOpt(content, "images");
      if images.JStr? && images.s != [] {
        signedUrls := map[];
        return;
      }
      if !images.JArr? || images.items == [] {
        return;
      }
      var items := images.items;
      var urls: map<string, JsValue> := map[];
      var i := 0;
      while i < |items|
        invariant 0 <= i <= |items|
        invariant SignedUrls(items[..i], sign) == Some(urls)
      {
        var img := items[i];
        assert items[..i + 1][..i] == items[..i];
        if IsNullish(img) {
          assert SignedUrls(items[..i + 1], sign).None?;
          SignedUrlsNoneExtends(items, i + 1, sign);
          return;
        }
        var path := GetOpt(img, "path");
        if Truthy(path) {
          var url := GetOpt(sign(path), "signedUrl");
          if Truthy(url) {
            urls := urls[StringOf(GetOpt(img, "id")) := url];
          }
        }
        i := i + 1;
      }
      assert items[..i] == items;
      signedUrls := urls;
    }
  }

  /** Once an image throws, the whole loop throws. */
  lemma SignedUrlsNoneExtends(images: seq<JsValue>, n: nat, sign: JsValue -> JsValue)
    requires n <= |images| && SignedUrls(images[..n], sign).None?
    ensures SignedUrls(images, sign).None?
  {
    var i :| 0 <= i < |images[..n]| && IsNullish(images[..n][i]);
    assert images[i] == images[..n][i];
  }
}

/** The studio index page (app/dashboard/studio/page.js): the user's design
    templates newest first, each with its section count; importing a template
    from a JSON file; deleting one after confirmation. The file contents,
    `JSON.parse`, the auth provider, the confirmation dialog and the store's
    errors are parameters. */
module Studio {
  import opened Js
  import opened Records
  import Seqs

  /** A row of the `templates` table. */
  datatype TemplateRow = TemplateRow(id: string, userId: string, name: JsValue, config: JsValue, createdAt: int)

  const ImportFailed: Toast := Failure(JStr("Invalid JSON configuration"))

  /** `importedData.name || "Imported Design"` */
  function ImportName(data: JsValue): (name: JsValue)
    requires !IsNullish(data)
    ensures Truthy(name)
    ensures Truthy(Get(data, "name").value) ==> name == Get(data, "name").value
    ensures !Truthy(Get(data, "name").value) ==> name == JStr("Imported Design")
  {
    var name := GetOpt(data, "name");
    if Truthy(name) then name else JStr("Imported Design")
  }

  /** `importedData.config || importedData`: a wrapped config is unwrapped, a
      bare one is taken as is. */
  function ImportConfig(data: JsValue): (config: JsValue)
    requires !IsNullish(data)
    ensures Truthy(Get(data, "config").value) ==> config == Get(data, "config").value
    ensures !Truthy(Get(data, "config").value) ==> config == data
  {
    var config := GetOpt(data, "config");
    if Truthy(config) then config else data
  }

  /** Importing a file written as `{name, config}` gives back that name and
      config. */
  lemma ImportWrappedTemplate(name: string, config: JsValue)
    requires name != "" && Truthy(config)
    ensures var data := JObj(map["name" := JStr(name), "config" := config]);
            ImportName(data) == JStr(name) && ImportConfig(data) == config
  {
  }

  /** Importing a bare config (an object with neither `name` nor `config`) keeps
      the whole object as the config under the default name. */
  lemma ImportBareConfig(m: map<string, JsValue>)
    requires "name" !in m && "config" !in m
    ensures ImportName(JObj(m)) == JStr("Imported Design") && ImportConfig(JObj(m)) == JObj(m)
  {
  }

  /** The row `handleImport` inserts, or the error that ends it: a parse
      failure, a missing user (`user.id`) or a null/undefined document
      (`importedData.name`). */
  function ImportedRow(text: string, parse: string -> Option<JsValue>, user: Option<User>,
                       id: string, createdAt: int): (r: Result<TemplateRow>)
    ensures r.Ok? <==> parse(text).Some? && user.Some? && !IsNullish(parse(text).value)
    ensures r.Ok? ==>
              var data := parse(text).value;
              r.value.userId == user.value.id && r.value.name == ImportName(data) &&
              r.value.config == ImportConfig(data) && r.value.id == id && r.value.createdAt == createdAt
  {
    match parse(text)
    case None => Err("SyntaxError")
    case Some(data) =>
      if user.None? || IsNullish(data) then Err("TypeError")
      else Ok(TemplateRow(id, user.value.id, ImportName(data), ImportConfig(data), createdAt))
  }

  /** `template.config?.sections?.length || 0` */
  function SectionCount(config: JsValue): (n: JsValue)
    ensures GetOpt(config, "sections").JArr? ==> n == JNum(|GetOpt(config, "sections").items|)
    ensures IsNullish(config) || IsNullish(GetOpt(config, "sections")) ==> n == JNum(0)
    ensures Truthy(n) || n == JNum(0)
  {
    var length := GetOpt(GetOpt(config, "sections"), "length");
    if Truthy(length) then length else JNum(0)
  }

  function CreatedAt(t: TemplateRow): int {
    t.createdAt
  }

  /** `.eq("user_id", userId)` */
  function UserTemplates(rows: seq<TemplateRow>, userId: string): seq<TemplateRow> {
    Seqs.Filter(rows, (t: TemplateRow) => t.userId == userId)
  }

  /** The templates query's answer: the user's templates, newest first. */
  ghost predicate Listed(templates: seq<TemplateRow>, rows: seq<TemplateRow>, userId: string) {
    Seqs.SortedDesc(templates, CreatedAt) && multiset(templates) == multiset(UserTemplates(rows, userId))
  }

  /** A listing holds exactly the user's templates. */
  lemma ListedExactlyOwn(templates: seq<TemplateRow>, rows: seq<TemplateRow>, userId: string, t: TemplateRow)
    requires Listed(templates, rows, userId)
    ensures t in templates <==> t in rows && t.userId == userId
  {
    var own := UserTemplates(rows, userId);
    assert t in templates <==> t in multiset(templates);
    assert t in own <==> t in multiset(own);
    if t in rows && t.userId == userId {
      var i :| 0 <= i < |rows| && rows[i] == t;
      assert t in own;
    }
    if t in own {
      var i :| 0 <= i < |own| && own[i] == t;
    }
  }

  /** `.delete().eq("id", id)`: a hard delete of every row with that id,
      whoever owns it; the other rows stay. */
  function RemoveById(rows: seq<TemplateRow>, id: string): (r: seq<TemplateRow>)
    ensures forall i :: 0 <= i < |r| ==> r[i].id != id && r[i] in rows
    ensures forall i :: 0 <= i < |rows| && rows[i].id != id ==> rows[i] in r
    ensures multiset(r) <= multiset(rows)
  {
    Seqs.Filter(rows, (t: TemplateRow) => t.id != id)
  }

  /** Every row without the id is kept as often as the list holds it, and
      no row with the id survives. */
  lemma RemoveByIdCount(rows: seq<TemplateRow>, id: string, t: TemplateRow)
    ensures multiset(RemoveById(rows, id))[t] == if t.id != id then multiset(rows)[t] else 0
  {
    Seqs.FilterCount(rows, (t: TemplateRow) => t.id != id, t);
  }

  /** Deleting an id that is present removes at least one row. */
  lemma RemoveByIdShrinks(rows: seq<TemplateRow>, id: string, i: nat)
    requires i < |rows| && rows[i].id == id
    ensures |RemoveById(rows, id)| < |rows|
  {
    var r := RemoveById(rows, id);
    assert rows[i] !in r;
    assert rows[i] !in multiset(r) && rows[i] in multiset(rows);
    assert multiset(rows) == multiset(r) + (multiset(rows) - multiset(r));
    assert |multiset(rows) - multiset(r)| > 0;
  }

  /** The `templates` table. */
  class TemplateTable {
    var rows: seq<TemplateRow>

    constructor(initial: seq<TemplateRow>)
      ensures rows == initial
    {
      rows := initial;
    }
  }

  /** The page's state. */
  class StudioPage {
    var templates: seq<TemplateRow>
    var loading: bool
    var toasts: seq<Toast>

    constructor()
      ensures templates == [] && loading && toasts == []
    {
      templates := [];
      loading := true;
      toasts := [];
    }

    /** `fetchTemplates()`: with a user and an answer, the user's templates
        newest first; without either, the list is kept. Loading ends in every
        case. */
    method FetchTemplates(user: Option<User>, table: TemplateTable, queryFails: bool)
      modifies this`templates, this`loading
      ensures !loading
      ensures user.None? || queryFails ==> templates == old(templates)
      ensures user.Some? && !queryFails ==> Listed(templates, table.rows, user.value.id)
    {
      if user.Some? && !queryFails {
        templates := Seqs.SortDesc(UserTemplates(table.rows, user.value.id), CreatedAt);
      }
      loading := false;
    }

    /** `handleImport(e)`: no file, nothing happens. Otherwise the row of
        `ImportedRow` is inserted and the list re-fetched; a parse, user or
        insert error inserts nothing and shows the one "Invalid JSON
        configuration" toast. */
    method HandleImport(file: Option<string>, parse: string -> Option<JsValue>, user: Option<User>,
                        table: TemplateTable, insertFails: bool, id: string, createdAt: int,
                        queryFails: bool)
      modifies this, table
      ensures file.None? ==>
                table.rows == old(table.rows) && templates == old(templates) &&
                toasts == old(toasts) && loading == old(loading)
      ensures file.Some? && (ImportedRow(file.value, parse, user, id, createdAt).Err? || insertFails) ==>
                table.rows == old(table.rows) && templates == old(templates) &&
                toasts == old(toasts) + [ImportFailed] && loading == old(loading)
      ensures file.Some? && ImportedRow(file.value, parse, user, id, createdAt).Ok? && !insertFails ==>
                table.rows == old(table.rows) + [ImportedRow(file.value, parse, user, id, createdAt).value] &&
                toasts == old(toasts) + [Success(JStr("Design imported to Studio"))] &&
                (!queryFails ==> Listed(templates, table.rows, user.value.id)) &&
                (queryFails ==> templates == old(templates)) && !loading
    {
      if file.None? {
        return;
      }
      var row := ImportedRow(file.value, parse, user, id, createdAt);
      if row.Err? || insertFails {
        toasts := toasts + [ImportFailed];
        return;
      }
      table.rows := table.rows + [row.value];
      toasts := toasts + [Success(JStr("Design imported to Studio"))];
      FetchTemplates(user, table, queryFails);
    }

    /** The "Delete" button: only once confirmed, and then a hard delete by id;
        on success a toast and a re-fetch. */
    method DeleteTemplate(confirmed: bool, id: string, user: Option<User>, table: TemplateTable,
                          deleteFails: bool, queryFails: bool)
      modifies this, table
      ensures !confirmed || deleteFails ==>
                table.rows == old(table.rows) && templates == old(templates) &&
                toasts == old(toasts) && loading == old(loading)
      ensures confirmed && !deleteFails ==>
                table.rows == RemoveById(old(table.rows), id) &&
                toasts == old(toasts) + [Success(JStr("Design deleted"))] && !loading
      ensures confirmed && !deleteFails && (user.None? || queryFails) ==> templates == old(templates)
      ensures confirmed && !deleteFails && user.Some? && !queryFails ==>
                Listed(templates, table.rows, user.value.id) &&
                forall i :: 0 <= i < |templates| ==> templates[i].id != id
    {
      if !confirmed || deleteFails {
        return;
      }
      table.rows := RemoveById(table.rows, id);
      toasts := toasts + [Success(JStr("Design deleted"))];
      FetchTemplates(user, table, queryFails);
      if user.Some? && !queryFails {
        forall i | 0 <= i < |templates| ensures templates[i].id != id {
          ListedExactlyOwn(templates, table.rows, user.value.id, templates[i]);
          var j :| 0 <= j < |table.rows| && table.rows[j] == templates[i];
        }
      }
    }
  }
}

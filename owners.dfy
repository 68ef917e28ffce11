/**
 * Owner resolution (`Media::getOwners`) and projection into descriptors
 * (`Media::getOwnerDetails`). The container lookup, reflection, pluralisation,
 * trait inspection and routing are the uninterpreted parts of a `Runtime`.
 */
module Owners {
  import opened Wrappers
  import opened PhpValues
  import opened Mediables

  /**
   * A loaded Eloquent model: its class, id, the name of its title attribute
   * (`titleKey`), its attributes, and, for a block, its `blockable` parent.
   */
  datatype Entity = Entity(cls: string, id: int, titleKey: string, attributes: map<string, Value>,
                           blockable: Option<Entity>)

  /** What the code reaches outside itself for. */
  datatype Runtime = Runtime(
    morphMap: map<string, string>,                  // Relation::morphMap()
    resolvable: string -> bool,                     // resolve($class) succeeds
    find: (string, int) -> Option<Entity>,          // resolve($class)::find($id)
    shortName: string -> string,                    // ReflectionClass::getShortName
    plural: string -> string,                       // Str::plural
    hasSlug: string -> bool,                        // classHasTrait($m, HasSlug::class)
    isBlock: string -> bool,                        // $item instanceof Block
    routePrefixes: map<string, Value>,              // twill.block_editor.browser_route_prefixes
    moduleRoute: (string, Value, string, int) -> string)

  /** The uniform description of one owner. */
  datatype OwnerDescriptor = OwnerDescriptor(id: int, slug: Value, name: Value, titleKey: string,
                                             model: Entity, moduleName: string, edit: string)

  /** The class a stored type tag stands for: its morph-map entry, or the tag itself. */
  function ResolveClass(morphMap: map<string, string>, tag: string): (cls: string)
    ensures tag in morphMap ==> cls == morphMap[tag]
    ensures tag !in morphMap ==> cls == tag
  {
    if tag in morphMap then morphMap[tag] else tag
  }

  /** Whether the row's class can be resolved by the container. */
  predicate Resolvable(rt: Runtime, row: MediableRow)
    ensures row.mediableType in rt.morphMap ==> (Resolvable(rt, row) <==> rt.resolvable(rt.morphMap[row.mediableType]))
    ensures row.mediableType !in rt.morphMap ==> (Resolvable(rt, row) <==> rt.resolvable(row.mediableType))
  {
    rt.resolvable(ResolveClass(rt.morphMap, row.mediableType))
  }

  /** The entity a row points to, or None when it no longer exists. */
  function Load(rt: Runtime, row: MediableRow): (r: Option<Entity>)
    ensures row.mediableType in rt.morphMap ==> r == rt.find(rt.morphMap[row.mediableType], row.mediableId)
    ensures row.mediableType !in rt.morphMap ==> r == rt.find(row.mediableType, row.mediableId)
  {
    rt.find(ResolveClass(rt.morphMap, row.mediableType), row.mediableId)
  }

  /**
   * Maps every row to its entity in row order; the first row whose class the
   * container cannot resolve raises, naming that class.
   */
  function LoadAll(rt: Runtime, rows: seq<MediableRow>): (r: Result<seq<Option<Entity>>, string>)
    ensures r.Success? <==> forall i :: 0 <= i < |rows| ==> Resolvable(rt, rows[i])
    ensures r.Success? ==> |r.value| == |rows| && forall i :: 0 <= i < |rows| ==> r.value[i] == Load(rt, rows[i])
    ensures r.Failure? ==> exists i :: 0 <= i < |rows| && !Resolvable(rt, rows[i]) &&
                                       r.error == ResolveClass(rt.morphMap, rows[i].mediableType) &&
                                       forall j :: 0 <= j < i ==> Resolvable(rt, rows[j])
    decreases |rows|
  {
    if rows == [] then Success([])
    else if !Resolvable(rt, rows[0]) then Failure(ResolveClass(rt.morphMap, rows[0].mediableType))
    else
      var rest := LoadAll(rt, rows[1..]);
      assert forall i :: 1 <= i < |rows| ==> rows[i] == rows[1..][i - 1];
      match rest
      case Failure(e) =>
        assert exists i :: 0 <= i < |rows[1..]| && !Resolvable(rt, rows[1..][i]) &&
                           e == ResolveClass(rt.morphMap, rows[1..][i].mediableType) &&
                           forall j :: 0 <= j < i ==> Resolvable(rt, rows[1..][j]);
        Failure(e)
      case Success(owners) => Success([Load(rt, rows[0])] + owners)
  }

  /** `getOwners()`: one lookup result per association row of the asset, in row order. */
  function GetOwners(rt: Runtime, rows: seq<MediableRow>, mediaId: int): (r: Result<seq<Option<Entity>>, string>)
    ensures r.Success? ==> |r.value| == OwnerCount(rows, mediaId)
    ensures r.Success? ==> forall i :: 0 <= i < |r.value| ==> r.value[i] == Load(rt, RowsFor(rows, mediaId)[i])
    ensures r.Success? <==> forall row :: row in rows && row.mediaId == mediaId ==> Resolvable(rt, row)
  {
    var selected := RowsFor(rows, mediaId);
    assert forall row :: row in selected <==> exists i :: 0 <= i < |selected| && selected[i] == row;
    LoadAll(rt, selected)
  }

  /** `Str::plural(lcfirst(getShortName($class)))`. */
  function ModuleOf(rt: Runtime, cls: string): (moduleName: string)
    ensures moduleName == rt.plural(Lcfirst(rt.shortName(cls)))
  {
    rt.plural(Lcfirst(rt.shortName(cls)))
  }

  /** PHP `lcfirst`: lower-cases an ASCII upper-case first character. */
  function Lcfirst(s: string): (r: string)
    ensures |r| == |s| && (s != [] ==> r[1..] == s[1..])
    ensures s != [] && 'A' <= s[0] <= 'Z' ==> r[0] == s[0] - 'A' + 'a'
    ensures s != [] && !('A' <= s[0] <= 'Z') ==> r == s
  {
    if s != [] && 'A' <= s[0] <= 'Z' then [(s[0] - 'A' + 'a') as char] + s[1..] else s
  }

  /** The descriptor of `subject` filed under `moduleName`. */
  function Project(rt: Runtime, subject: Entity, moduleName: string): (d: OwnerDescriptor)
    ensures d.model == subject && d.id == subject.id && d.moduleName == moduleName
    ensures d.slug == if rt.hasSlug(subject.cls) then Lookup(subject.attributes, "slug") else Null
    ensures d.titleKey == subject.titleKey && d.name == Lookup(subject.attributes, subject.titleKey)
    ensures d.edit == rt.moduleRoute(moduleName, Lookup(rt.routePrefixes, moduleName), "edit", subject.id)
  {
    OwnerDescriptor(
      subject.id,
      if rt.hasSlug(subject.cls) then Lookup(subject.attributes, "slug") else Null,
      Lookup(subject.attributes, subject.titleKey),
      subject.titleKey,
      subject,
      moduleName,
      rt.moduleRoute(moduleName, Lookup(rt.routePrefixes, moduleName), "edit", subject.id))
  }

  /**
   * The descriptor of one loaded owner: a block is described by its `blockable`
   * parent and is dropped when that parent is absent or its module name is falsy;
   * any other entity is described by itself.
   */
  function Describe(rt: Runtime, item: Entity): (r: Option<OwnerDescriptor>)
    ensures !rt.isBlock(item.cls) ==> r.Some? && r.value.model == item
    ensures rt.isBlock(item.cls) ==>
              (r.Some? <==> item.blockable.Some? && StrTruthy(ModuleOf(rt, item.blockable.value.cls)))
    ensures rt.isBlock(item.cls) && r.Some? ==> r.value.model == item.blockable.value
    ensures r.Some? ==> r.value.id == r.value.model.id &&
                        r.value.moduleName == ModuleOf(rt, r.value.model.cls) &&
                        r.value.titleKey == r.value.model.titleKey &&
                        r.value.name == Lookup(r.value.model.attributes, r.value.model.titleKey)
    ensures r.Some? && !rt.hasSlug(r.value.model.cls) ==> r.value.slug == Null
  {
    if rt.isBlock(item.cls) then
      match item.blockable
      case None => None
      case Some(parent) =>
        var moduleName := ModuleOf(rt, parent.cls);
        if StrTruthy(moduleName) then Some(Project(rt, parent, moduleName)) else None
    else
      Some(Project(rt, item, ModuleOf(rt, item.cls)))
  }

  /** Whether a lookup result yields a descriptor. */
  predicate Contributes(rt: Runtime, owner: Option<Entity>)
  {
    owner.Some? && Describe(rt, owner.value).Some?
  }

  /**
   * The filter / map / filter / values pipeline of `getOwnerDetails`: missing
   * entities and blocks without a usable parent are dropped, the rest are
   * described in order, re-indexed from 0.
   */
  function OwnerDetails(rt: Runtime, owners: seq<Option<Entity>>): (r: seq<OwnerDescriptor>)
    ensures |r| <= |owners|
    decreases |owners|
  {
    if owners == [] then []
    else
      var rest := OwnerDetails(rt, owners[1..]);
      if Contributes(rt, owners[0]) then [Describe(rt, owners[0].value).value] + rest else rest
  }

  /** `getOwnerDetails()`: the descriptors of the asset's owners; raises when `getOwners` does. */
  function GetOwnerDetails(rt: Runtime, rows: seq<MediableRow>, mediaId: int): (r: Result<seq<OwnerDescriptor>, string>)
    ensures r.Success? <==> GetOwners(rt, rows, mediaId).Success?
    ensures r.Success? ==> |r.value| <= OwnerCount(rows, mediaId)
  {
    match GetOwners(rt, rows, mediaId)
    case Failure(e) => Failure(e)
    case Success(owners) => Success(OwnerDetails(rt, owners))
  }

  /** Projection distributes over concatenation: each record is handled on its own, order is kept. */
  lemma {:induction false} OwnerDetailsAppend(rt: Runtime, a: seq<Option<Entity>>, b: seq<Option<Entity>>)
    ensures OwnerDetails(rt, a + b) == OwnerDetails(rt, a) + OwnerDetails(rt, b)
    decreases |a|
  {
    if a == [] {
      assert a + b == b;
    } else {
      assert (a + b)[1..] == a[1..] + b;
      OwnerDetailsAppend(rt, a[1..], b);
    }
  }

  /**
   * A missing entity, or a block whose parent is absent, contributes nothing:
   * removing it leaves the result unchanged, so the result is one shorter than
   * the input when every other record survives.
   */
  lemma DroppedRecord(rt: Runtime, a: seq<Option<Entity>>, x: Option<Entity>, b: seq<Option<Entity>>)
    requires x.None? || (rt.isBlock(x.value.cls) && x.value.blockable.None?)
    ensures OwnerDetails(rt, a + [x] + b) == OwnerDetails(rt, a + b)
  {
    OwnerDetailsAppend(rt, a + [x], b);
    OwnerDetailsAppend(rt, a, [x]);
    OwnerDetailsAppend(rt, a, b);
  }

  /** When every record yields a descriptor, there is one descriptor per owner, in order. */
  lemma {:induction false} AllContribute(rt: Runtime, owners: seq<Option<Entity>>)
    requires forall k :: 0 <= k < |owners| ==> Contributes(rt, owners[k])
    ensures |OwnerDetails(rt, owners)| == |owners|
    ensures forall k :: 0 <= k < |owners| ==>
              owners[k].Some? && Describe(rt, owners[k].value).Some? &&
              OwnerDetails(rt, owners)[k] == Describe(rt, owners[k].value).value
    decreases |owners|
  {
    if owners != [] {
      assert forall k :: 1 <= k < |owners| ==> owners[k] == owners[1..][k - 1];
      AllContribute(rt, owners[1..]);
    }
  }

  /** Every descriptor comes from an owner that exists and describes to it. */
  lemma {:induction false} OwnerDetailsSound(rt: Runtime, owners: seq<Option<Entity>>, d: OwnerDescriptor)
    requires d in OwnerDetails(rt, owners)
    ensures exists k :: 0 <= k < |owners| && owners[k].Some? && Describe(rt, owners[k].value) == Some(d)
    decreases |owners|
  {
    if Contributes(rt, owners[0]) && d == Describe(rt, owners[0].value).value {
      assert owners[0].Some? && Describe(rt, owners[0].value) == Some(d);
    } else {
      OwnerDetailsSound(rt, owners[1..], d);
      var k :| 0 <= k < |owners[1..]| && owners[1..][k].Some? && Describe(rt, owners[1..][k].value) == Some(d);
      assert owners[k + 1] == owners[1..][k];
    }
  }

  /** Every owner that exists and describes to something is in the result. */
  lemma {:induction false} OwnerDetailsComplete(rt: Runtime, owners: seq<Option<Entity>>, k: nat)
    requires k < |owners| && Contributes(rt, owners[k])
    ensures Describe(rt, owners[k].value).value in OwnerDetails(rt, owners)
    decreases |owners|
  {
    if k > 0 {
      assert owners[k] == owners[1..][k - 1];
      OwnerDetailsComplete(rt, owners[1..], k - 1);
    }
  }

  /**
   * No descriptor refers to an entity that does not exist: each one is the
   * projection of an entity loaded from one of the asset's rows, or of that
   * block's `blockable` parent.
   */
  lemma GetOwnerDetailsSound(rt: Runtime, rows: seq<MediableRow>, mediaId: int, d: OwnerDescriptor)
    requires GetOwnerDetails(rt, rows, mediaId).Success?
    requires d in GetOwnerDetails(rt, rows, mediaId).value
    ensures exists row, e :: row in rows && row.mediaId == mediaId && Load(rt, row) == Some(e) &&
                             ((!rt.isBlock(e.cls) && d.model == e) ||
                              (rt.isBlock(e.cls) && e.blockable == Some(d.model)))
  {
    var selected := RowsFor(rows, mediaId);
    var owners := GetOwners(rt, rows, mediaId).value;
    OwnerDetailsSound(rt, owners, d);
    var k :| 0 <= k < |owners| && owners[k].Some? && Describe(rt, owners[k].value) == Some(d);
    assert owners[k] == Load(rt, selected[k]);
    assert selected[k] in selected;
    var e := owners[k].value;
    assert selected[k] in rows && selected[k].mediaId == mediaId && Load(rt, selected[k]) == Some(e);
  }

  /**
   * Every association row of the asset whose entity exists and is describable
   * has its descriptor in the result.
   */
  lemma GetOwnerDetailsComplete(rt: Runtime, rows: seq<MediableRow>, mediaId: int, i: nat)
    requires GetOwnerDetails(rt, rows, mediaId).Success?
    requires i < |rows| && rows[i].mediaId == mediaId && Contributes(rt, Load(rt, rows[i]))
    ensures Describe(rt, Load(rt, rows[i]).value).value in GetOwnerDetails(rt, rows, mediaId).value
  {
    var selected := RowsFor(rows, mediaId);
    var owners := GetOwners(rt, rows, mediaId).value;
    assert rows[i] in selected;
    var k :| 0 <= k < |selected| && selected[k] == rows[i];
    assert owners[k] == Load(rt, rows[i]);
    OwnerDetailsComplete(rt, owners, k);
  }

  /** An asset that may be deleted has no owner descriptors. */
  lemma DeletableHasNoOwners(rt: Runtime, rows: seq<MediableRow>, mediaId: int)
    requires CanDeleteSafely(rows, mediaId)
    ensures GetOwnerDetails(rt, rows, mediaId) == Success([])
  {
  }

  /**
   * Two rows, one pointing at a deleted article and one at live article 5
   * titled "Hello", give exactly one descriptor, filed under "articles".
   */
  lemma ArticleExample()
    ensures
      var hello := Entity("App\\Models\\Article", 5, "title", map["title" := Str("Hello")], None);
      var rt := Runtime(map["articles" := "App\\Models\\Article"], c => true,
                        (c, id) => if id == 5 then Some(hello) else None,
                        c => "Article", s => s + "s", c => false, c => false, map[],
                        (m, prefix, action, id) => "/" + m + "/" + action);
      var details := GetOwnerDetails(rt, [MediableRow(1, "articles", 4), MediableRow(1, "articles", 5)], 1);
      details.Success? && |details.value| == 1 && details.value[0].id == 5 &&
      details.value[0].name == Str("Hello") && details.value[0].moduleName == "articles"
  {
  }
}

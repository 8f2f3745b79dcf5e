/** The correlation builders: how a relation of the parent query's model
    becomes a sub-query correlated to the parent rows. A simple relation is
    linked by one foreign key; a compound one goes through a pivot, either a
    `via()` relation or a `viaTable()` query. Both detach the relation from
    the record it was fetched for (`primaryModel = null`) and repeat the
    correlating equality inside the sub-query. */
module Relations {
  import opened Php
  import opened Values

  /** A prepared relation: the relation query the residual conditions go onto,
      and what links the finished relation to the parent rows. For a compound
      relation, `pivot` is the pivot query before its two where-clauses, which
      refer to the finished relation. */
  datatype Binding =
    | Simple(relation: Query, localKey: string)
    | Compound(relation: Query, pivot: Query, localKey: string, remoteKey: string, pivotEquality: string)

  /** `` "`$table`.`$column`" `` */
  function Quoted(table: string, column: string): string
  {
    "`" + table + "`.`" + column + "`"
  }

  /** The first entry of a `link` array (`array_keys($link)[0]`,
      `array_values($link)[0]`); an empty link gives empty column names, as
      PHP's undefined offset does inside a string. */
  function FirstLink(links: seq<Link>): Link
  {
    if links == [] then Link("", "") else links[0]
  }

  /** The first table of a `from` list (`$pivot->from[0]`), empty if there is none. */
  function FirstFrom(from: seq<string>): string
  {
    if from == [] then "" else from[0]
  }

  /** The table of the pivot: that of the `via()` relation's model, or the
      table named in the `viaTable()` query's `from`. */
  function PivotTable(w: World, via: Via): string
    requires via != NoVia
  {
    if via.ViaArray? then w.tableOf(via.pivot.modelClass) else FirstFrom(via.pivot.from)
  }

  /** What `simpleRelation($relation)` prepares. */
  function SimpleBinding(w: World, relation: Query): Res<Binding>
  {
    if relation.primaryModel.None? then Err(NoPrimaryModel)
    else
      var link := FirstLink(relation.link);
      var tLocal := Quoted(w.tableOf(relation.primaryModel.value), link.local);
      var tForeign := Quoted(w.tableOf(relation.modelClass), link.foreign);
      Ok(Simple(
        relation.(primaryModel := None, select := [tForeign],
                  wheres := relation.wheres + [And(Str(tLocal + " = " + tForeign))]),
        tLocal))
  }

  /** What `compoundRelation($relation)` prepares. */
  function CompoundBinding(w: World, relation: Query): Res<Binding>
    requires relation.via != NoVia
  {
    if relation.primaryModel.None? then Err(NoPrimaryModel)
    else
      var remote := FirstLink(relation.link);
      var pivot := relation.via.pivot;
      var link := FirstLink(pivot.link);
      var pivotTable := PivotTable(w, relation.via);
      var tLocal := Quoted(w.tableOf(relation.primaryModel.value), link.local);
      var tForeign := Quoted(pivotTable, link.foreign);
      var tRemoteLocal := Quoted(pivotTable, remote.local);
      var tRemoteForeign := Quoted(w.tableOf(relation.modelClass), remote.foreign);
      Ok(Compound(
        relation.(primaryModel := None, select := [tRemoteForeign],
                  wheres := relation.wheres + [And(Str(tRemoteLocal + " = " + tRemoteForeign))]),
        pivot.(primaryModel := None, select := [tForeign]),
        tLocal, tRemoteLocal, tLocal + " = " + tForeign))
  }

  /** What `prepareRelationCondition` prepares for the relation its getter returned. */
  function PrepareBinding(w: World, relation: Query): Res<Binding>
  {
    if relation.via != NoVia then CompoundBinding(w, relation) else SimpleBinding(w, relation)
  }

  /** `prepareRelationCondition($relationName)` on a query of the model
      `modelClass`: the relation its getter returns, prepared. A getter that
      does not return a relation query is an error. */
  function RelationBinding(w: World, modelClass: string, relationName: string): Res<Binding>
  {
    var getter := Lower("get" + UcFirst(relationName));
    match w.relationOf(modelClass, getter)
    case None => Err(NotARelation(getter))
    case Some(relation) => PrepareBinding(w, relation)
  }

  /** The processed condition of a prepared relation, once the residual
      conditions have been added to `relation`: the parent's local column
      mapped to the sub-query, through the pivot for a compound relation. */
  function Correlation(b: Binding, relation: Query): Value
  {
    match b
    case Simple(_, localKey) => Single(localKey, Sub(relation))
    case Compound(_, pivot, localKey, remoteKey, pivotEquality) =>
      Single(localKey, Sub(pivot.(wheres := pivot.wheres + [And(Single(remoteKey, Sub(relation))), And(Str(pivotEquality))])))
  }

  /** `simpleRelation($relation)`, step by step on the relation. */
  method SimpleRelation(w: World, relation: Query) returns (r: Res<Binding>)
    ensures r == SimpleBinding(w, relation)
  {
    var link := FirstLink(relation.link);
    var foreign := link.foreign;
    var local := link.local;
    var foreignTable := w.tableOf(relation.modelClass);
    if relation.primaryModel.None? {
      return Err(NoPrimaryModel);
    }
    var localTable := w.tableOf(relation.primaryModel.value);
    var rel := relation.(primaryModel := None);
    var tLocal := Quoted(localTable, local);
    var tForeign := Quoted(foreignTable, foreign);
    rel := Select(rel, tForeign);
    rel := AndWhere(rel, Str(tLocal + " = " + tForeign));
    r := Ok(Simple(rel, tLocal));
  }

  /** `compoundRelation($relation)`, step by step on the relation and its pivot. */
  method CompoundRelation(w: World, relation: Query) returns (r: Res<Binding>)
    requires relation.via != NoVia
    ensures r == CompoundBinding(w, relation)
  {
    var via := relation.via;
    var viaRelation := via.ViaArray?;
    var remoteLink := FirstLink(relation.link);
    var remoteForeign := remoteLink.foreign;
    var remoteLocal := remoteLink.local;
    var remoteForeignTable := w.tableOf(relation.modelClass);
    if relation.primaryModel.None? {
      return Err(NoPrimaryModel);
    }
    var localTable := w.tableOf(relation.primaryModel.value);
    var rel := relation.(primaryModel := None);
    var pivot := via.pivot;
    var link := FirstLink(pivot.link);
    pivot := pivot.(primaryModel := None);
    var foreign := link.foreign;
    var local := link.local;
    var pivotTable := if viaRelation then w.tableOf(pivot.modelClass) else FirstFrom(pivot.from);
    var tLocal := Quoted(localTable, local);
    var tForeign := Quoted(pivotTable, foreign);
    var tRemoteLocal := Quoted(pivotTable, remoteLocal);
    var tRemoteForeign := Quoted(remoteForeignTable, remoteForeign);
    rel := Select(rel, tRemoteForeign);
    pivot := Select(pivot, tForeign);
    rel := AndWhere(rel, Str(tRemoteLocal + " = " + tRemoteForeign));
    r := Ok(Compound(rel, pivot, tLocal, tRemoteLocal, tLocal + " = " + tForeign));
  }

  // ---------------------------------------------------------------------------
  // Properties

  /** Only the query parts the builders touch: everything but the where-clauses,
      the selected columns and the bound record is left as it was. */
  predicate SameShape(a: Query, b: Query)
  {
    a.queryClass == b.queryClass && a.modelClass == b.modelClass
    && a.link == b.link && a.via == b.via && a.from == b.from
  }

  /** A simple relation is detached from its record, selects the foreign
      column of the first link entry, gains exactly the equality between
      that column and the parent's local column, and keys the link by the
      parent's local column. */
  lemma {:induction false} SimpleBindingShape(w: World, relation: Query)
    requires relation.primaryModel.Some? && relation.via == NoVia
    ensures var link := if relation.link == [] then Link("", "") else relation.link[0];
      var tLocal := "`" + w.tableOf(relation.primaryModel.value) + "`.`" + link.local + "`";
      var tForeign := "`" + w.tableOf(relation.modelClass) + "`.`" + link.foreign + "`";
      && PrepareBinding(w, relation).Ok?
      && var b := PrepareBinding(w, relation).value;
      && b.Simple? && b.localKey == tLocal
      && b.relation.primaryModel.None? && b.relation.select == [tForeign]
      && b.relation.wheres == relation.wheres + [And(Str(tLocal + " = " + tForeign))]
      && SameShape(b.relation, relation)
  {
  }

  /** A relation without a record to detach from cannot be prepared. */
  lemma {:induction false} BindingNeedsRecord(w: World, relation: Query)
    ensures PrepareBinding(w, relation).Err? <==> relation.primaryModel.None?
  {
  }

  /** Only the first `link` entry matters to a simple relation: two relations
      that differ only in the later entries of their links are prepared alike
      apart from the link they carry. */
  lemma {:induction false} SimpleBindingFirstLinkOnly(w: World, a: Query, b: Query)
    requires a.link != [] && b.link != [] && a.link[0] == b.link[0]
    requires a == b.(link := a.link) && a.via == NoVia
    ensures SimpleBinding(w, a).Ok? <==> SimpleBinding(w, b).Ok?
    ensures SimpleBinding(w, a).Ok? ==>
      && SimpleBinding(w, a).value.localKey == SimpleBinding(w, b).value.localKey
      && SimpleBinding(w, a).value.relation == SimpleBinding(w, b).value.relation.(link := a.link)
  {
  }

  /** The pivot table of a compound relation comes from the `via()`
      relation's model, or else from the `viaTable()` query's first `from`
      entry; the parent is linked to the pivot by the pivot's first link
      entry and the pivot to the target by the relation's. */
  lemma {:induction false} CompoundBindingShape(w: World, relation: Query)
    requires relation.primaryModel.Some? && relation.via != NoVia
    ensures var pivot := relation.via.pivot;
      var pivotTable := if relation.via.ViaArray? then w.tableOf(pivot.modelClass)
                        else if pivot.from == [] then "" else pivot.from[0];
      var link := FirstLink(pivot.link);
      var remote := FirstLink(relation.link);
      var tLocal := Quoted(w.tableOf(relation.primaryModel.value), link.local);
      var tForeign := Quoted(pivotTable, link.foreign);
      var tRemoteLocal := Quoted(pivotTable, remote.local);
      var tRemoteForeign := Quoted(w.tableOf(relation.modelClass), remote.foreign);
      && PrepareBinding(w, relation).Ok?
      && var b := PrepareBinding(w, relation).value;
      && b.Compound? && b.localKey == tLocal && b.remoteKey == tRemoteLocal
      && b.pivotEquality == tLocal + " = " + tForeign
      && b.relation.primaryModel.None? && b.relation.select == [tRemoteForeign]
      && b.relation.wheres == relation.wheres + [And(Str(tRemoteLocal + " = " + tRemoteForeign))]
      && SameShape(b.relation, relation)
      && b.pivot.primaryModel.None? && b.pivot.select == [tForeign]
      && b.pivot.wheres == pivot.wheres && SameShape(b.pivot, pivot)
  {
  }

  /** The link of a prepared relation is a one-entry array keyed by the
      parent's local column. For a simple relation it maps to the finished
      relation; for a compound one it maps to the pivot, which now also holds
      the pivot-to-target link (to the finished relation) and the
      parent-to-pivot equality, after its own earlier where-clauses. */
  lemma {:induction false} CorrelationShape(b: Binding, relation: Query)
    ensures var c := Correlation(b, relation);
      && c.Arr? && |c.entries| == 1 && c.entries[0].key == StrKey(b.localKey)
      && c.entries[0].val.Sub?
      && (b.Simple? ==> c.entries[0].val.q == relation)
      && (b.Compound? ==>
            var p := c.entries[0].val.q;
            && SameShape(p, b.pivot) && p.select == b.pivot.select && p.primaryModel == b.pivot.primaryModel
            && p.wheres == b.pivot.wheres + [And(Single(b.remoteKey, Sub(relation))), And(Str(b.pivotEquality))])
  {
  }
}

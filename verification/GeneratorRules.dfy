/**
 The generator's rules for collection events as the author of a schema reads them, by names,
 numbers and types of fields; and the proof that exactly these are enforced.
 */
module GeneratorRules {
  import opened Machine
  import opened Generator

  ghost predicate HasField(fields: seq<Field>, name: string, typ: FieldType) {
    exists i :: 0 <= i < |fields| && fields[i].name == name && fields[i].typ == typ
  }

  /** A field of that name, number and scalar type. A repeated field passes for a singular one. */
  ghost predicate HasNumbered(fields: seq<Field>, name: string, number: int, kind: ProtoType) {
    exists i :: 0 <= i < |fields| && IsNumbered(fields[i], name, number, kind)
  }

  ghost predicate IsNumbered(f: Field, name: string, number: int, kind: ProtoType) {
    && f.name == name && f.number == number
    && (f.typ == Singular(Scalar(kind)) || f.typ == Repeated(Scalar(kind)))
  }

  /** Field `d` is the only one that every event does not have. */
  ghost predicate OnlyDomain(fields: seq<Field>, d: int) {
    && 0 <= d < |fields|
    && forall i :: 0 <= i < |fields| ==> (i == d <==> fields[i].name !in {"id", "version", "at", "actor"})
  }

  /** The target is a map from strings to messages `fqn` that have the key, a singular string. */
  ghost predicate TargetsMapOf(schema: Schema, agg: Declaration, cm: Mapping, fqn: string) {
    && cm.target != "" && cm.keyField != ""
    && HasField(agg.fields, cm.target, Map(StringT, Message(fqn)))
    && fqn in schema.byName
    && HasField(schema.byName[fqn].fields, cm.keyField, Singular(Scalar(StringT)))
  }

  ghost predicate LaterCommand(m: Declaration, event: string) {
    m.command.Some? && event in m.command.value.producesEvents && m.command.value.lifecycle != Creation
  }

  ghost predicate AnyCommand(m: Declaration, event: string) {
    m.command.Some? && event in m.command.value.producesEvents
  }

  /** A REMOVE event needs a command that is not a creation command, or none at all. */
  ghost predicate MayRemove(schema: Schema, event: string) {
    || (exists i :: 0 <= i < |schema.messages| && LaterCommand(schema.messages[i], event))
    || (forall i :: 0 <= i < |schema.messages| ==> !AnyCommand(schema.messages[i], event))
  }

  ghost predicate EventFits(schema: Schema, evt: Declaration, cm: Mapping, fqn: string) {
    match cm.action
    case Unspecified => false
    case Add => exists d :: OnlyDomain(evt.fields, d) && evt.fields[d].typ == Singular(Message(fqn))
    case Remove =>
      && (exists d :: OnlyDomain(evt.fields, d))
      && HasField(evt.fields, cm.keyField, Singular(Scalar(StringT)))
      && MayRemove(schema, evt.name)
  }

  // ---------------------------------------------------------------- names are distinct

  lemma FirstNamedIs(fields: seq<Field>, i: nat)
    requires DistinctNames(fields) && i < |fields|
    ensures First(fields, Named(fields[i].name)) == Some(fields[i])
  {
    FirstFound(fields, Named(fields[i].name), fields[i]);
    var r := First(fields, Named(fields[i].name)).value;
    var k :| 0 <= k < |fields| && fields[k] == r;
    assert k < i ==> fields[k].name != fields[i].name;
    assert i < k ==> fields[i].name != fields[k].name;
  }

  lemma FirstHas(fields: seq<Field>, name: string, typ: FieldType)
    requires DistinctNames(fields)
    ensures var f := First(fields, Named(name));
            f.Some? && f.value.typ == typ <==> HasField(fields, name, typ)
  {
    hide DistinctNames;
    if HasField(fields, name, typ) {
      var i :| 0 <= i < |fields| && fields[i].name == name && fields[i].typ == typ;
      FirstNamedIs(fields, i);
    }
    var r := First(fields, Named(name));
    if r.Some? && r.value.typ == typ {
      var k :| 0 <= k < |fields| && fields[k] == r.value;
    }
  }

  lemma {:induction false} SelectNone(fields: seq<Field>, p: Field -> bool)
    requires forall i :: 0 <= i < |fields| ==> !p(fields[i])
    ensures Select(fields, p) == []
  {
    if fields != [] {
      SelectNone(fields[..|fields| - 1], p);
    }
  }

  lemma {:induction false} SelectOne(fields: seq<Field>, p: Field -> bool, d: nat)
    requires d < |fields| && forall i :: 0 <= i < |fields| ==> (p(fields[i]) <==> i == d)
    ensures Select(fields, p) == [fields[d]]
  {
    var n := |fields| - 1;
    assert Select(fields, p) == Select(fields[..n], p) + if p(fields[n]) then [fields[n]] else [];
    hide Select;
    if d == n {
      SelectNone(fields[..n], p);
    } else {
      SelectOne(fields[..n], p, d);
    }
  }

  lemma OneDomainField(fields: seq<Field>, typ: FieldType)
    requires DistinctNames(fields)
    ensures |Select(fields, IsDomain())| == 1 <==> exists d :: OnlyDomain(fields, d)
    ensures forall d :: OnlyDomain(fields, d) ==> Select(fields, IsDomain()) == [fields[d]]
  {
    forall d | OnlyDomain(fields, d) ensures Select(fields, IsDomain()) == [fields[d]] {
      SelectOne(fields, IsDomain(), d);
    }
    if |Select(fields, IsDomain())| == 1 {
      var f := Select(fields, IsDomain())[0];
      assert f in Select(fields, IsDomain());
      var d :| 0 <= d < |fields| && fields[d] == f;
      forall i | 0 <= i < |fields| ensures i == d <==> fields[i].name !in {"id", "version", "at", "actor"} {
        if IsDomain()(fields[i]) {
          OneSelected(fields, IsDomain(), fields[i]);
          assert fields[i] == f;
        }
      }
      assert OnlyDomain(fields, d);
    }
  }

  // ---------------------------------------------------------------- the rules are what is enforced

  lemma LastNamedIs(fields: seq<Field>, req: Required)
    requires DistinctNames(fields) && (req.kind == StringT || req.kind == Int64T)
    ensures Meets(LastNamed(fields, req.name), req) <==> HasNumbered(fields, req.name, req.number, req.kind)
  {
    hide DistinctNames;
    if HasNumbered(fields, req.name, req.number, req.kind) {
      var i :| 0 <= i < |fields| && IsNumbered(fields[i], req.name, req.number, req.kind);
      LastNamedFinds(fields, fields[i]);
    }
    if Meets(LastNamed(fields, req.name), req) {
      LastNamedIsThere(fields, req.name);
      var f := LastNamed(fields, req.name).value;
      var i :| 0 <= i < |fields| && fields[i] == f;
      assert IsNumbered(fields[i], req.name, req.number, req.kind);
    }
  }

  lemma {:induction false} LastNamedIsThere(fields: seq<Field>, name: string)
    ensures var f := LastNamed(fields, name);
            f.Some? ==> f.value in fields && f.value.name == name
  {
    if fields != [] {
      LastNamedIsThere(fields[..|fields| - 1], name);
    }
  }

  /** The required fields of every event: id = 1, version = 2, at = 3, actor = 4. */
  lemma RequiredFields(evt: Declaration)
    requires DistinctNames(evt.fields)
    ensures HasRequired(evt, EVENT_FIELDS) <==>
              && HasNumbered(evt.fields, "id", 1, StringT) && HasNumbered(evt.fields, "version", 2, Int64T)
              && HasNumbered(evt.fields, "at", 3, Int64T) && HasNumbered(evt.fields, "actor", 4, StringT)
  {
    hide DistinctNames, HasNumbered, LastNamed, Meets;
    forall i | 0 <= i < |EVENT_FIELDS|
      ensures Meets(LastNamed(evt.fields, EVENT_FIELDS[i].name), EVENT_FIELDS[i]) <==>
              HasNumbered(evt.fields, EVENT_FIELDS[i].name, EVENT_FIELDS[i].number, EVENT_FIELDS[i].kind)
    {
      LastNamedIs(evt.fields, EVENT_FIELDS[i]);
    }
    assert EVENT_FIELDS[0] == Required("id", 1, StringT) && EVENT_FIELDS[1] == Required("version", 2, Int64T);
    assert EVENT_FIELDS[2] == Required("at", 3, Int64T) && EVENT_FIELDS[3] == Required("actor", 4, StringT);
  }

  ghost predicate AllDistinct(schema: Schema) {
    forall fqn :: fqn in schema.byName ==> DistinctNames(schema.byName[fqn].fields)
  }

  /** The validator's view of the target. */
  ghost predicate TargetIs(schema: Schema, agg: Declaration, cm: Mapping, fqn: string) {
    TargetOk(schema, agg, cm) && First(agg.fields, Named(cm.target)).value.typ.element == Message(fqn)
  }

  lemma TargetRule(schema: Schema, agg: Declaration, cm: Mapping, fqn: string)
    requires Resolved(schema, agg) && DistinctNames(agg.fields) && AllDistinct(schema)
    ensures TargetsMapOf(schema, agg, cm, fqn) <==> TargetIs(schema, agg, cm, fqn)
  {
    hide DistinctNames, First;
    FirstHas(agg.fields, cm.target, Map(StringT, Message(fqn)));
    if fqn in schema.byName {
      FirstHas(schema.byName[fqn].fields, cm.keyField, Singular(Scalar(StringT)));
    }
  }

  lemma CreationRule(schema: Schema, event: string)
    ensures OnlyCreated(schema.messages, event) <==> !MayRemove(schema, event)
  {
    assert forall m :: LaterCommand(m, event) == ProducesLater(m, event) && AnyCommand(m, event) == Produces(m, event);
  }

  /**
   Of the events with the required fields, the validator accepts exactly those whose mapping
   targets a map of some message and that fit it.
   */
  lemma AcceptedByTheRules(schema: Schema, evt: Declaration, agg: Declaration, cm: Mapping)
    requires Resolved(schema, agg) && DistinctNames(agg.fields) && DistinctNames(evt.fields) && AllDistinct(schema)
    requires HasRequired(evt, EVENT_FIELDS) && evt.collection == Some(cm)
    ensures WellMapped(schema, evt, agg, cm) <==>
              exists fqn :: TargetsMapOf(schema, agg, cm, fqn) && EventFits(schema, evt, cm, fqn)
  {
    hide DistinctNames, AllDistinct, TargetOk, First, Select, OnlyCreated, MayRemove, HasField, HasRequired,
      TargetsMapOf, OnlyDomain, Resolved;
    OneDomainField(evt.fields, Singular(Scalar(StringT)));
    FirstHas(evt.fields, cm.keyField, Singular(Scalar(StringT)));
    CreationRule(schema, evt.name);
    forall fqn ensures TargetsMapOf(schema, agg, cm, fqn) <==> TargetIs(schema, agg, cm, fqn) {
      TargetRule(schema, agg, cm, fqn);
    }
    if cm.action == Add {
      AddAccepted(schema, evt, agg, cm);
    }
    if TargetOk(schema, agg, cm) {
      TargetIsMessage(schema, agg, cm);
      assert TargetsMapOf(schema, agg, cm, First(agg.fields, Named(cm.target)).value.typ.element.fqn);
    }
  }

  lemma TargetIsMessage(schema: Schema, agg: Declaration, cm: Mapping)
    requires TargetOk(schema, agg, cm)
    ensures var f := First(agg.fields, Named(cm.target));
            f.Some? && f.value.typ.Map? && f.value.typ.element.Message?
  {
  }
}

/**
 The code generator's checks on collection events, and the lookups its templates make
 afterwards without checking their results.
 */
module Generator {
  import opened Machine

  datatype ProtoType = StringT | Int64T | MessageT | OtherT

  /** The type of a singular value or of an element of a repeated or map field. */
  datatype Plain = Scalar(kind: ProtoType) | Message(fqn: string)

  datatype FieldType = Singular(value: Plain) | Repeated(element: Plain) | Map(key: ProtoType, element: Plain)

  datatype Field = Field(name: string, number: int, typ: FieldType)

  datatype Action = Unspecified | Add | Remove
  datatype Mapping = Mapping(target: string, action: Action, keyField: string)

  datatype Lifecycle = UnspecifiedCycle | Creation | Mutation
  datatype CommandOptions = CommandOptions(lifecycle: Lifecycle, producesEvents: seq<string>)

  datatype Declaration = Declaration(
    name: string, fqn: string, fields: seq<Field>,
    command: Option<CommandOptions>, collection: Option<Mapping>)

  /** All messages of a file, and every message reachable by its full name. */
  datatype Schema = Schema(messages: seq<Declaration>, byName: map<string, Declaration>)

  /** What protoc guarantees of a resolved file: field types that are messages exist. */
  ghost predicate Resolved(schema: Schema, m: Declaration) {
    forall i :: 0 <= i < |m.fields| ==>
      var t := m.fields[i].typ;
      (t.Map? && t.element.Message? ==>
         && t.element.fqn in schema.byName
         && schema.byName[t.element.fqn].fqn == t.element.fqn
         && schema.byName[t.element.fqn].name != "")
  }

  /** ... and field names within a message are distinct. */
  ghost predicate DistinctNames(fields: seq<Field>) {
    forall i, j :: 0 <= i < j < |fields| ==> fields[i].name != fields[j].name
  }

  /** The descriptor's type: of a repeated field the element's, of a map the entry message. */
  function TypeOf(t: FieldType): ProtoType {
    match t
    case Singular(Scalar(k)) => k
    case Singular(Message(_)) => MessageT
    case Repeated(Scalar(k)) => k
    case Repeated(Message(_)) => MessageT
    case Map(_, _) => MessageT
  }

  // ---------------------------------------------------------------- searching fields

  function First(fields: seq<Field>, p: Field -> bool): (r: Option<Field>)
    ensures r.Some? ==> r.value in fields && p(r.value)
  {
    if fields == [] then None else if p(fields[0]) then Some(fields[0]) else First(fields[1..], p)
  }

  function Select(fields: seq<Field>, p: Field -> bool): (r: seq<Field>)
    ensures forall f :: f in r <==> f in fields && p(f)
  {
    if fields == [] then []
    else
      var n := |fields| - 1;
      Select(fields[..n], p) + if p(fields[n]) then [fields[n]] else []
  }

  function Named(name: string): Field -> bool {
    (f: Field) => f.name == name
  }

  /** A map field of that name with message values. */
  function Collection(target: string): Field -> bool {
    (f: Field) => f.name == target && f.typ.Map? && f.typ.element.Message?
  }

  function Embeds(fqn: string): Field -> bool {
    (f: Field) => f.typ == Singular(Message(fqn))
  }

  predicate IsReserved(name: string) {
    name == "id" || name == "version" || name == "at" || name == "actor"
  }

  function IsDomain(): Field -> bool {
    (f: Field) => !IsReserved(f.name)
  }

  /** A search loop that stops at the first hit. */
  method FindFirst(fields: seq<Field>, p: Field -> bool) returns (r: Option<Field>)
    ensures r == First(fields, p)
  {
    r := None;
    var i := 0;
    while i < |fields| && r.None?
      invariant 0 <= i <= |fields|
      invariant First(fields, p) == if r.Some? then r else First(fields[i..], p)
      decreases |fields| - i, r.None?
    {
      if p(fields[i]) {
        r := Some(fields[i]);
      } else {
        i := i + 1;
      }
    }
  }

  method Collect(fields: seq<Field>, p: Field -> bool) returns (r: seq<Field>)
    ensures r == Select(fields, p)
  {
    r := [];
    for i := 0 to |fields|
      invariant r == Select(fields[..i], p)
    {
      assert fields[..i + 1][..i] == fields[..i];
      if p(fields[i]) {
        r := r + [fields[i]];
      }
    }
    assert fields[..|fields|] == fields;
  }

  // ---------------------------------------------------------------- required fields

  datatype Required = Required(name: string, number: int, kind: ProtoType)

  const EVENT_FIELDS: seq<Required> := [
    Required("id", 1, StringT), Required("version", 2, Int64T),
    Required("at", 3, Int64T), Required("actor", 4, StringT)]

  /** The last field of a name, which is what an index by name keeps. */
  function LastNamed(fields: seq<Field>, name: string): Option<Field> {
    if fields == [] then None
    else
      var last := fields[|fields| - 1];
      if last.name == name then Some(last) else LastNamed(fields[..|fields| - 1], name)
  }

  predicate Meets(f: Option<Field>, req: Required) {
    f.Some? && f.value.number == req.number && TypeOf(f.value.typ) == req.kind
  }

  ghost predicate HasRequired(m: Declaration, required: seq<Required>) {
    forall i :: 0 <= i < |required| ==> Meets(LastNamed(m.fields, required[i].name), required[i])
  }

  datatype FieldError = MissingField(req: Required) | WrongNumber(req: Required) | WrongType(req: Required)

  ghost predicate Explains(e: FieldError, f: Option<Field>) {
    match e
    case MissingField(_) => f.None?
    case WrongNumber(req) => f.Some? && f.value.number != req.number
    case WrongType(req) => f.Some? && f.value.number == req.number && TypeOf(f.value.typ) != req.kind
  }

  method IndexByName(fields: seq<Field>) returns (byName: map<string, Field>)
    ensures forall name :: LastNamed(fields, name) == if name in byName then Some(byName[name]) else None
  {
    byName := map[];
    for i := 0 to |fields|
      invariant forall name :: LastNamed(fields[..i], name) == if name in byName then Some(byName[name]) else None
    {
      assert fields[..i + 1][..i] == fields[..i];
      byName := byName[fields[i].name := fields[i]];
    }
    assert fields[..|fields|] == fields;
  }

  /** Accepts exactly the messages that have the required fields, and names the first that is wrong. */
  method ValidateFields(m: Declaration, required: seq<Required>) returns (e: Option<FieldError>)
    ensures e.None? <==> HasRequired(m, required)
    ensures e.Some? ==>
              exists i :: 0 <= i < |required| && required[i] == e.value.req && HasRequired(m, required[..i])
                       && Explains(e.value, LastNamed(m.fields, required[i].name))
  {
    var byName := IndexByName(m.fields);
    e := None;
    var i := 0;
    while i < |required| && e.None?
      invariant 0 <= i <= |required| && HasRequired(m, required[..i])
      invariant e.Some? ==> i < |required| && e.value.req == required[i]
      invariant e.Some? ==> Explains(e.value, LastNamed(m.fields, required[i].name))
      decreases |required| - i, e.None?
    {
      var req := required[i];
      assert LastNamed(m.fields, req.name) == if req.name in byName then Some(byName[req.name]) else None;
      if req.name !in byName {
        e := Some(MissingField(req));
      } else if byName[req.name].number != req.number {
        e := Some(WrongNumber(req));
      } else if TypeOf(byName[req.name].typ) != req.kind {
        e := Some(WrongType(req));
      } else {
        i := i + 1;
      }
    }
    assert e.None? ==> required[..i] == required;
  }

  // ---------------------------------------------------------------- creation events

  ghost predicate Produces(m: Declaration, event: string) {
    m.command.Some? && event in m.command.value.producesEvents
  }

  /** A command other than a creation command produces the event. */
  ghost predicate ProducesLater(m: Declaration, event: string) {
    Produces(m, event) && m.command.value.lifecycle != Creation
  }

  /** Some command produces the event, and only creation commands do. */
  ghost predicate OnlyCreated(messages: seq<Declaration>, event: string) {
    && (exists i :: 0 <= i < |messages| && Produces(messages[i], event))
    && (forall i :: 0 <= i < |messages| ==> !ProducesLater(messages[i], event))
  }

  method IsCreationEvent(messages: seq<Declaration>, event: string) returns (r: bool)
    ensures r == OnlyCreated(messages, event)
  {
    var produced, excluded := false, false;
    for i := 0 to |messages|
      invariant !excluded ==> (produced <==> exists k :: 0 <= k < i && Produces(messages[k], event))
      invariant excluded <==> exists k :: 0 <= k < i && ProducesLater(messages[k], event)
    {
      if messages[i].command.Some? {
        var events := messages[i].command.value.producesEvents;
        for j := 0 to |events|
          invariant !excluded ==>
                      (produced <==> event in events[..j] || exists k :: 0 <= k < i && Produces(messages[k], event))
          invariant excluded <==>
            ((event in events[..j] && messages[i].command.value.lifecycle != Creation)
            || exists k :: 0 <= k < i && ProducesLater(messages[k], event))
        {
          if events[j] == event {
            if messages[i].command.value.lifecycle == Creation {
              produced := true;
            } else {
              excluded := true;
            }
          }
        }
        assert events[..|events|] == events;
      }
    }
    r := produced && !excluded;
  }

  // ---------------------------------------------------------------- collection mappings

  datatype MappingError =
    | NoTarget | NoAction | NoKeyField
    | TargetNotFound | TargetNotMap | TargetKeyNotString | TargetValueNotMessage
    | ElementKeyNotFound | ElementKeyNotSingular | ElementKeyNotString
    | RemoveOnCreation
    | NoElementField | SeveralElementFields
    | EventKeyNotFound | EventKeyNotSingular | EventKeyNotString
    | NotOneDomainField

  /** The element message of the collection a mapping targets. */
  function ElementOf(schema: Schema, agg: Declaration, target: string): Option<Declaration> {
    var f := First(agg.fields, Named(target));
    if f.Some? && f.value.typ.Map? && f.value.typ.element.Message? && f.value.typ.element.fqn in schema.byName
    then Some(schema.byName[f.value.typ.element.fqn])
    else None
  }

  predicate IsString(f: Option<Field>) {
    f.Some? && f.value.typ == Singular(Scalar(StringT))
  }

  /** What the three annotation fields must say together with the aggregate. */
  ghost predicate TargetOk(schema: Schema, agg: Declaration, cm: Mapping) {
    && cm.target != "" && cm.keyField != ""
    && First(agg.fields, Named(cm.target)).Some?
    && var t := First(agg.fields, Named(cm.target)).value.typ;
    && t.Map? && t.key == StringT && t.element.Message?
    && ElementOf(schema, agg, cm.target).Some?
    && IsString(First(ElementOf(schema, agg, cm.target).value.fields, Named(cm.keyField)))
  }

  /** What the event must look like, action by action. */
  ghost predicate EventOk(schema: Schema, evt: Declaration, element: Declaration, cm: Mapping) {
    && |Select(evt.fields, IsDomain())| == 1
    && match cm.action
       case Unspecified => false
       case Add => |Select(evt.fields, Embeds(element.fqn))| == 1
       case Remove => !OnlyCreated(schema.messages, evt.name) && IsString(First(evt.fields, Named(cm.keyField)))
  }

  ghost predicate WellMapped(schema: Schema, evt: Declaration, agg: Declaration, cm: Mapping) {
    TargetOk(schema, agg, cm) && EventOk(schema, evt, ElementOf(schema, agg, cm.target).value, cm)
  }

  /** What each complaint means, whatever else is wrong: those about the mapping and its target, */
  ghost predicate TargetFails(schema: Schema, agg: Declaration, cm: Mapping, e: MappingError) {
    var target := First(agg.fields, Named(cm.target));
    var element := ElementOf(schema, agg, cm.target);
    var key := if element.Some? then First(element.value.fields, Named(cm.keyField)) else None;
    match e
    case NoTarget => cm.target == ""
    case NoAction => cm.action == Unspecified
    case NoKeyField => cm.keyField == ""
    case TargetNotFound => target.None?
    case TargetNotMap => target.Some? && !target.value.typ.Map?
    case TargetKeyNotString => target.Some? && target.value.typ.Map? && target.value.typ.key != StringT
    case TargetValueNotMessage => target.Some? && target.value.typ.Map? && !target.value.typ.element.Message?
    case ElementKeyNotFound => element.Some? && key.None?
    case ElementKeyNotSingular => key.Some? && !key.value.typ.Singular?
    case ElementKeyNotString => key.Some? && TypeOf(key.value.typ) != StringT
    case _ => false
  }

  /** and those about the event. */
  ghost predicate EventFails(schema: Schema, evt: Declaration, element: Declaration, cm: Mapping, e: MappingError) {
    var key := First(evt.fields, Named(cm.keyField));
    match e
    case RemoveOnCreation => cm.action == Remove && OnlyCreated(schema.messages, evt.name)
    case NoElementField => cm.action == Add && |Select(evt.fields, Embeds(element.fqn))| == 0
    case SeveralElementFields => cm.action == Add && |Select(evt.fields, Embeds(element.fqn))| > 1
    case EventKeyNotFound => cm.action == Remove && key.None?
    case EventKeyNotSingular => cm.action == Remove && key.Some? && !key.value.typ.Singular?
    case EventKeyNotString => cm.action == Remove && key.Some? && TypeOf(key.value.typ) != StringT
    case NotOneDomainField => |Select(evt.fields, IsDomain())| != 1
    case _ => false
  }

  /** The order in which the checks are made. */
  function Rank(e: MappingError): nat {
    match e
    case NoTarget => 0
    case NoAction => 1
    case NoKeyField => 2
    case TargetNotFound => 3
    case TargetNotMap => 4
    case TargetKeyNotString => 5
    case TargetValueNotMessage => 6
    case ElementKeyNotFound => 7
    case ElementKeyNotSingular => 8
    case ElementKeyNotString => 9
    case RemoveOnCreation => 10
    case NoElementField => 11
    case SeveralElementFields => 12
    case EventKeyNotFound => 13
    case EventKeyNotSingular => 14
    case EventKeyNotString => 15
    case NotOneDomainField => 16
  }

  /** The first of the target's checks that fails. */
  ghost predicate BlamesTarget(schema: Schema, agg: Declaration, cm: Mapping, e: MappingError) {
    TargetFails(schema, agg, cm, e) && forall x: MappingError :: Rank(x) < Rank(e) ==> !TargetFails(schema, agg, cm, x)
  }

  ghost predicate BlamesEvent(schema: Schema, evt: Declaration, element: Declaration, cm: Mapping, e: MappingError) {
    && EventFails(schema, evt, element, cm, e)
    && forall x: MappingError :: Rank(x) < Rank(e) ==> !EventFails(schema, evt, element, cm, x)
  }

  /** The checks on the aggregate's side, in the order they are made. */
  method ValidateTarget(schema: Schema, agg: Declaration, cm: Mapping) returns (e: Option<MappingError>)
    requires Resolved(schema, agg)
    ensures e.None? <==> TargetOk(schema, agg, cm) && cm.action != Unspecified
    ensures e.Some? ==> BlamesTarget(schema, agg, cm, e.value)
  {
    hide First, Select, OnlyCreated, Named, Embeds, IsDomain;
    var target := FindFirst(agg.fields, Named(cm.target));
    if cm.target == "" {
      e := Some(NoTarget);
    } else if cm.action == Unspecified {
      e := Some(NoAction);
    } else if cm.keyField == "" {
      e := Some(NoKeyField);
    } else if target.None? {
      e := Some(TargetNotFound);
    } else if !target.value.typ.Map? {
      e := Some(TargetNotMap);
    } else if target.value.typ.key != StringT {
      e := Some(TargetKeyNotString);
    } else if !target.value.typ.element.Message? {
      e := Some(TargetValueNotMessage);
    } else {
      var element := schema.byName[target.value.typ.element.fqn];
      var key := FindFirst(element.fields, Named(cm.keyField));
      if key.None? {
        e := Some(ElementKeyNotFound);
      } else if !key.value.typ.Singular? {
        e := Some(ElementKeyNotSingular);
      } else if TypeOf(key.value.typ) != StringT {
        e := Some(ElementKeyNotString);
      } else {
        e := None;
      }
    }
  }

  /** The checks on the event's side, once the target is right. */
  method ValidateEvent(schema: Schema, evt: Declaration, element: Declaration, cm: Mapping)
    returns (e: Option<MappingError>)
    requires cm.action != Unspecified
    ensures e.None? <==> EventOk(schema, evt, element, cm)
    ensures e.Some? ==> BlamesEvent(schema, evt, element, cm, e.value)
  {
    hide First, Select, OnlyCreated, Named, Embeds, IsDomain;
    e := None;
    if cm.action == Remove {
      var created := IsCreationEvent(schema.messages, evt.name);
      if created {
        return Some(RemoveOnCreation);
      }
    }
    var domain := Collect(evt.fields, IsDomain());
    if cm.action == Add {
      var matching := Collect(evt.fields, Embeds(element.fqn));
      if |matching| == 0 {
        return Some(NoElementField);
      }
      if |matching| > 1 {
        return Some(SeveralElementFields);
      }
    } else {
      var key := FindFirst(evt.fields, Named(cm.keyField));
      if key.None? {
        return Some(EventKeyNotFound);
      }
      if !key.value.typ.Singular? {
        return Some(EventKeyNotSingular);
      }
      if TypeOf(key.value.typ) != StringT {
        return Some(EventKeyNotString);
      }
    }
    if |domain| != 1 {
      e := Some(NotOneDomainField);
    }
  }

  /**
   Accepts an event without annotation, and otherwise exactly the well-mapped ones; the error is
   the first check that fails.
   */
  method ValidateCollectionMapping(schema: Schema, evt: Declaration, agg: Declaration) returns (e: Option<MappingError>)
    requires Resolved(schema, agg)
    ensures e.None? <==> evt.collection.None? || WellMapped(schema, evt, agg, evt.collection.value)
    ensures e.Some? ==>
              && evt.collection.Some?
              && var cm := evt.collection.value;
              if TargetOk(schema, agg, cm) && cm.action != Unspecified
              then BlamesEvent(schema, evt, ElementOf(schema, agg, cm.target).value, cm, e.value)
              else BlamesTarget(schema, agg, cm, e.value)
  {
    hide First, Select, OnlyCreated, BlamesEvent, BlamesTarget;
    e := None;
    if evt.collection.Some? {
      var cm := evt.collection.value;
      e := ValidateTarget(schema, agg, cm);
      if e.None? {
        var target := FindFirst(agg.fields, Named(cm.target));
        e := ValidateEvent(schema, evt, schema.byName[target.value.typ.element.fqn], cm);
      }
    }
  }

  // ---------------------------------------------------------------- lookups of the templates

  /** The field an ADD event's element is taken from. */
  ghost function SourceField(evt: Declaration, agg: Declaration): Option<Field> {
    if evt.collection.None? then None
    else
      var target := First(agg.fields, Named(evt.collection.value.target));
      if target.Some? && target.value.typ.Map? && target.value.typ.element.Message?
      then First(evt.fields, Embeds(target.value.typ.element.fqn))
      else None
  }

  method EventCollectionSourceField(evt: Declaration, agg: Declaration) returns (r: Option<Field>)
    ensures r == SourceField(evt, agg)
  {
    hide First;
    r := None;
    if evt.collection.Some? {
      var target := FindFirst(agg.fields, Named(evt.collection.value.target));
      if target.Some? && target.value.typ.Map? && target.value.typ.element.Message? {
        r := FindFirst(evt.fields, Embeds(target.value.typ.element.fqn));
      }
    }
  }

  /** The Go name of the element type, empty when there is no such collection. */
  method CollectionElementTypeName(schema: Schema, goName: string -> string, target: string, agg: Declaration)
    returns (r: string)
    requires Resolved(schema, agg)
    ensures var f := First(agg.fields, Collection(target));
            && (f.None? ==> r == "")
            && (f.Some? ==>
                 && f.value.typ.element.fqn in schema.byName
                 && r == goName(schema.byName[f.value.typ.element.fqn].name))
  {
    hide First;
    r := "";
    var f := FindFirst(agg.fields, Collection(target));
    if f.Some? {
      r := goName(schema.byName[f.value.typ.element.fqn].name);
    }
  }

  /** The key field found in the first collection of that name that has one. */
  ghost function KeyIn(schema: Schema, fields: seq<Field>, target: string, keyField: string): Option<Field> {
    if fields == [] then None
    else
      var f := fields[0];
      var key :=
        if Collection(target)(f) && f.typ.element.fqn in schema.byName
        then First(schema.byName[f.typ.element.fqn].fields, Named(keyField))
        else None;
      if key.Some? then key else KeyIn(schema, fields[1..], target, keyField)
  }

  /** The Go name of the key field, empty when no collection of that name has one. */
  method CollectionKeyFieldGoName(schema: Schema, goName: string -> string, keyField: string, target: string,
                                  agg: Declaration)
    returns (r: string)
    requires Resolved(schema, agg)
    ensures var key := KeyIn(schema, agg.fields, target, keyField);
            r == if key.Some? then goName(key.value.name) else ""
  {
    hide First;
    var found: Option<Field> := None;
    var i := 0;
    while i < |agg.fields| && found.None?
      invariant 0 <= i <= |agg.fields|
      invariant KeyIn(schema, agg.fields, target, keyField)
             == if found.Some? then found else KeyIn(schema, agg.fields[i..], target, keyField)
      decreases |agg.fields| - i, found.None?
    {
      if Collection(target)(agg.fields[i]) {
        found := FindFirst(schema.byName[agg.fields[i].typ.element.fqn].fields, Named(keyField));
      }
      if found.None? {
        i := i + 1;
      }
    }
    r := if found.Some? then goName(found.value.name) else "";
  }

  // ---------------------------------------------------------------- soundness

  lemma {:induction false} FirstFound(fields: seq<Field>, p: Field -> bool, f: Field)
    requires f in fields && p(f)
    ensures First(fields, p).Some?
  {
    if !p(fields[0]) {
      FirstFound(fields[1..], p, f);
    }
  }

  /** With one match, the search finds it. */
  lemma FirstIsSelected(fields: seq<Field>, p: Field -> bool, f: Field)
    requires Select(fields, p) == [f]
    ensures First(fields, p) == Some(f)
  {
    assert f in Select(fields, p);
    FirstFound(fields, p, f);
    assert First(fields, p).value in Select(fields, p);
  }

  /** The first collection of a name is the first field of that name, if that is a collection. */
  lemma {:induction false} FirstCollection(fields: seq<Field>, target: string)
    requires First(fields, Named(target)).Some? && Collection(target)(First(fields, Named(target)).value)
    ensures First(fields, Collection(target)) == First(fields, Named(target))
  {
    if fields[0].name != target {
      FirstCollection(fields[1..], target);
    }
  }

  lemma {:induction false} FirstKey(schema: Schema, fields: seq<Field>, target: string, keyField: string)
    requires First(fields, Named(target)).Some? && Collection(target)(First(fields, Named(target)).value)
    requires var fqn := First(fields, Named(target)).value.typ.element.fqn;
             fqn in schema.byName && First(schema.byName[fqn].fields, Named(keyField)).Some?
    ensures var fqn := First(fields, Named(target)).value.typ.element.fqn;
            KeyIn(schema, fields, target, keyField) == First(schema.byName[fqn].fields, Named(keyField))
  {
    if fields[0].name != target {
      FirstKey(schema, fields[1..], target, keyField);
    }
  }

  lemma {:induction false} LastNamedFinds(fields: seq<Field>, f: Field)
    requires DistinctNames(fields) && f in fields
    ensures LastNamed(fields, f.name) == Some(f)
  {
    var n := |fields| - 1;
    if fields[n] != f {
      var i :| 0 <= i < n && fields[i] == f;
      assert fields[..n][i] == f;
      LastNamedFinds(fields[..n], f);
    }
  }

  /** A reserved field of a validated event holds no message. */
  lemma ReservedHoldsNoMessage(evt: Declaration, f: Field)
    requires HasRequired(evt, EVENT_FIELDS) && DistinctNames(evt.fields) && f in evt.fields && IsReserved(f.name)
    ensures !f.typ.Map? && TypeOf(f.typ) != MessageT
    ensures TypeOf(f.typ) == if f.name == "id" || f.name == "actor" then StringT else Int64T
  {
    hide LastNamed;
    LastNamedFinds(evt.fields, f);
    assert Meets(LastNamed(evt.fields, "id"), EVENT_FIELDS[0]);
    assert Meets(LastNamed(evt.fields, "version"), EVENT_FIELDS[1]);
    assert Meets(LastNamed(evt.fields, "at"), EVENT_FIELDS[2]);
    assert Meets(LastNamed(evt.fields, "actor"), EVENT_FIELDS[3]);
  }

  lemma {:induction false} SelectAgrees(fields: seq<Field>, p: Field -> bool, q: Field -> bool)
    requires forall f :: f in fields ==> p(f) == q(f)
    ensures Select(fields, p) == Select(fields, q)
  {
    if fields != [] {
      SelectAgrees(fields[..|fields| - 1], p, q);
    }
  }

  lemma OneSelected(fields: seq<Field>, p: Field -> bool, f: Field)
    requires |Select(fields, p)| == 1 && f in fields && p(f)
    ensures Select(fields, p) == [f]
  {
  }

  /** In a validated event only domain fields can hold the element. */
  lemma EmbedsInDomain(evt: Declaration, fqn: string)
    requires HasRequired(evt, EVENT_FIELDS) && DistinctNames(evt.fields)
    ensures forall f :: f in evt.fields && Embeds(fqn)(f) ==> IsDomain()(f)
  {
    hide HasRequired, DistinctNames;
    forall f | f in evt.fields && Embeds(fqn)(f) ensures IsDomain()(f) {
      if IsReserved(f.name) {
        ReservedHoldsNoMessage(evt, f);
      }
    }
  }

  /** One field of the element type and one domain field: they are the same field. */
  lemma OneElementField(evt: Declaration, fqn: string)
    requires HasRequired(evt, EVENT_FIELDS) && DistinctNames(evt.fields)
    requires |Select(evt.fields, IsDomain())| == 1
    ensures |Select(evt.fields, Embeds(fqn))| == 1 <==> Embeds(fqn)(Select(evt.fields, IsDomain())[0])
    ensures |Select(evt.fields, Embeds(fqn))| == 1 ==>
              First(evt.fields, Embeds(fqn)) == Some(Select(evt.fields, IsDomain())[0])
  {
    hide HasRequired, DistinctNames, First;
    EmbedsInDomain(evt, fqn);
    var f := Select(evt.fields, IsDomain())[0];
    assert f in Select(evt.fields, IsDomain());
    if |Select(evt.fields, Embeds(fqn))| == 1 {
      var g := Select(evt.fields, Embeds(fqn))[0];
      assert g in Select(evt.fields, Embeds(fqn));
      OneSelected(evt.fields, IsDomain(), g);
      FirstIsSelected(evt.fields, Embeds(fqn), g);
    }
    if Embeds(fqn)(f) {
      forall h | h in evt.fields ensures Embeds(fqn)(h) == IsDomain()(h) {
        if IsDomain()(h) {
          OneSelected(evt.fields, IsDomain(), h);
        }
      }
      SelectAgrees(evt.fields, Embeds(fqn), IsDomain());
    }
  }

  /**
   An ADD event with the required fields is accepted exactly when its target is a usable
   collection and its only domain field has the collection's element type; and then that field
   is the one the templates take the element from.
   */
  lemma AddAccepted(schema: Schema, evt: Declaration, agg: Declaration, cm: Mapping)
    requires HasRequired(evt, EVENT_FIELDS) && DistinctNames(evt.fields) && Resolved(schema, agg)
    requires evt.collection == Some(cm) && cm.action == Add
    ensures var domain := Select(evt.fields, IsDomain());
            WellMapped(schema, evt, agg, cm) <==>
              && TargetOk(schema, agg, cm) && |domain| == 1
              && domain[0].typ == Singular(First(agg.fields, Named(cm.target)).value.typ.element)
    ensures WellMapped(schema, evt, agg, cm) ==> SourceField(evt, agg) == Some(Select(evt.fields, IsDomain())[0])
  {
    hide HasRequired, DistinctNames, First, Select;
    if TargetOk(schema, agg, cm) && |Select(evt.fields, IsDomain())| == 1 {
      var element := First(agg.fields, Named(cm.target)).value.typ.element;
      assert ElementOf(schema, agg, cm.target).value.fqn == element.fqn;
      OneElementField(evt, element.fqn);
    }
  }

  /** With an accepted target, the element type and the key field are found. */
  lemma LookupsSucceed(schema: Schema, agg: Declaration, cm: Mapping)
    requires Resolved(schema, agg) && TargetOk(schema, agg, cm)
    ensures First(agg.fields, Collection(cm.target)) == First(agg.fields, Named(cm.target))
    ensures KeyIn(schema, agg.fields, cm.target, cm.keyField) ==
            First(ElementOf(schema, agg, cm.target).value.fields, Named(cm.keyField))
    ensures KeyIn(schema, agg.fields, cm.target, cm.keyField).value.name == cm.keyField
  {
    hide First, KeyIn;
    FirstCollection(agg.fields, cm.target);
    FirstKey(schema, agg.fields, cm.target, cm.keyField);
  }

  datatype Generated = Rejected | Untouched | AddCode(source: Field, elementType: string, keyName: string) | RemoveCode

  /**
   What generation does with one event: validates it, then looks names up without checking.
   Whatever is accepted gets a source field of the element type and non-empty names.
   */
  method Generate(schema: Schema, goName: string -> string, evt: Declaration, agg: Declaration) returns (g: Generated)
    requires Resolved(schema, agg) && DistinctNames(evt.fields)
    requires forall name :: name != "" ==> goName(name) != ""
    ensures g.Rejected? <==>
              || !HasRequired(evt, EVENT_FIELDS)
              || (evt.collection.Some? && !WellMapped(schema, evt, agg, evt.collection.value))
    ensures g.AddCode? ==>
              && evt.collection.Some? && evt.collection.value.action == Add
              && Select(evt.fields, IsDomain()) == [g.source]
              && g.source.typ.Singular? && First(agg.fields, Named(evt.collection.value.target)).Some?
              && First(agg.fields, Named(evt.collection.value.target)).value.typ == Map(StringT, g.source.typ.value)
              && g.elementType != "" && g.keyName == goName(evt.collection.value.keyField) && g.keyName != ""
    ensures !g.Rejected? ==> (g.Untouched? <==> evt.collection.None?)
    ensures !g.Rejected? && evt.collection.Some? ==> (g.AddCode? <==> evt.collection.value.action == Add)
  {
    hide First, Select, KeyIn, HasRequired, DistinctNames, EventOk;
    var fieldError := ValidateFields(evt, EVENT_FIELDS);
    var mappingError := ValidateCollectionMapping(schema, evt, agg);
    if fieldError.Some? || mappingError.Some? {
      g := Rejected;
    } else if evt.collection.None? {
      g := Untouched;
    } else {
      var cm := evt.collection.value;
      LookupsSucceed(schema, agg, cm);
      if cm.action == Add {
        AddAccepted(schema, evt, agg, cm);
        var source := EventCollectionSourceField(evt, agg);
        var elementType := CollectionElementTypeName(schema, goName, cm.target, agg);
        var keyName := CollectionKeyFieldGoName(schema, goName, cm.keyField, cm.target, agg);
        g := AddCode(source.value, elementType, keyName);
      } else {
        g := RemoveCode;
      }
    }
  }

  /**
   The error text calls the only domain field of a REMOVE event the key. Of an accepted event
   that is so exactly when key_field is not one of the reserved string fields.
   */
  lemma RemoveAccepted(schema: Schema, evt: Declaration, agg: Declaration, cm: Mapping)
    requires HasRequired(evt, EVENT_FIELDS) && DistinctNames(evt.fields)
    requires evt.collection == Some(cm) && cm.action == Remove && WellMapped(schema, evt, agg, cm)
    ensures Select(evt.fields, IsDomain())[0].name == cm.keyField <==> cm.keyField != "id" && cm.keyField != "actor"
  {
    hide HasRequired, DistinctNames, First, Select, OnlyCreated;
    var key := First(evt.fields, Named(cm.keyField)).value;
    var domain := Select(evt.fields, IsDomain());
    assert domain[0] in domain;
    if IsReserved(cm.keyField) {
      ReservedHoldsNoMessage(evt, key);
    } else {
      OneSelected(evt.fields, IsDomain(), key);
    }
  }

  function StringField(name: string, number: int): Field {
    Field(name, number, Singular(Scalar(StringT)))
  }

  const RESERVED: seq<Field> := [
    StringField("id", 1), Field("version", 2, Singular(Scalar(Int64T))),
    Field("at", 3, Singular(Scalar(Int64T))), StringField("actor", 4)]

  /** The required fields and one more are accepted, and the one more is the domain. */
  lemma OneMoreField(evt: Declaration, f: Field)
    requires evt.fields == RESERVED + [f] && !IsReserved(f.name)
    ensures HasRequired(evt, EVENT_FIELDS) && DistinctNames(evt.fields) && Select(evt.fields, IsDomain()) == [f]
  {
    hide LastNamed;
    assert DistinctNames(evt.fields);
    forall i | 0 <= i < |EVENT_FIELDS| ensures Meets(LastNamed(evt.fields, EVENT_FIELDS[i].name), EVENT_FIELDS[i]) {
      assert evt.fields[i] == RESERVED[i];
      LastNamedFinds(evt.fields, RESERVED[i]);
    }
    assert evt.fields[..4] == RESERVED;
    var none := Select(RESERVED, IsDomain());
    assert none != [] ==> none[0] in none;
  }

  /** A REMOVE event whose accepted key is the aggregate id, beside an unused domain field. */
  lemma RemoveByAggregateId() returns (schema: Schema, evt: Declaration, agg: Declaration)
    ensures HasRequired(evt, EVENT_FIELDS) && DistinctNames(evt.fields) && Resolved(schema, agg)
    ensures evt.collection == Some(Mapping("items", Remove, "id"))
    ensures WellMapped(schema, evt, agg, evt.collection.value)
    ensures Select(evt.fields, IsDomain()) == [StringField("reason", 5)]
  {
    hide HasRequired, DistinctNames, Select;
    var item := Declaration("Item", ".Item", [StringField("id", 1)], None, None);
    agg := Declaration("Order", ".Order", [Field("items", 5, Map(StringT, Message(".Item")))], None, None);
    schema := Schema([], map[".Item" := item]);
    var fields := RESERVED + [StringField("reason", 5)];
    evt := Declaration("ItemRemoved", ".ItemRemoved", fields, None, Some(Mapping("items", Remove, "id")));
    OneMoreField(evt, StringField("reason", 5));
    assert evt.fields[0] == RESERVED[0];
  }
}

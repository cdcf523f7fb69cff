/** Messages that fail halfway: where the decoder stops, and what is left in the cache, read off
    the message and the cache it met. */
module Messages {
  import opened Wrappers
  import opened Net
  import opened Templates

  predicate WithdrawsAll(t: Template) {
    t.fields == [] && (t.id.id == 2 || t.id.id == 3)
  }

  /** The template an ID stands for after some items, none of which is an error: what the last of
      them that names it says, or else what the cache had. */
  ghost function InEffect(c: Cache, items: seq<Item>, id: TemplateId): Option<Template> {
    if items == [] then if id in c.templates then Some(c.templates[id]) else None
    else
      var n := |items| - 1;
      match items[n]
      case TemplateRecord(t) =>
        if t.fields == [] && (t.id == id || WithdrawsAll(t)) then None
        else if t.fields != [] && t.id == id then Some(t)
        else InEffect(c, items[..n], id)
      case _ => InEffect(c, items[..n], id)
  }

  /** The records a data set holds under the template in effect, if they go into the sampling parameters. */
  ghost function OptionsRead(t: Option<Template>, id: TemplateId, decode: Template -> DataResult): seq<DataRecord> {
    if id.id >= 256 && t.Some? && t.value.scopeFieldCount > 0 && decode(t.value).Records? then decode(t.value).records
    else []
  }

  ghost function Flat(records: seq<DataRecord>): seq<DecodedField> {
    if records == [] then [] else Flat(records[..|records| - 1]) + records[|records| - 1]
  }

  /** The fields of options data read since the last withdrawal of all templates. */
  ghost function ReadSince(c: Cache, items: seq<Item>): seq<DecodedField> {
    if items == [] then []
    else
      var n := |items| - 1;
      match items[n]
      case TemplateRecord(t) => if WithdrawsAll(t) then [] else ReadSince(c, items[..n])
      case DataSet(id, decode) => ReadSince(c, items[..n]) + Flat(OptionsRead(InEffect(c, items[..n], id), id, decode))
      case Broken => ReadSince(c, items[..n])
  }

  ghost predicate SomeWithdrawsAll(items: seq<Item>) {
    exists i :: 0 <= i < |items| && items[i].TemplateRecord? && WithdrawsAll(items[i].template)
  }

  /** The last readable value of an element. */
  ghost function LastSaid(fields: seq<DecodedField>, element: U16): Option<nat> {
    if fields == [] then None
    else if Says(fields[|fields| - 1], element) then Some(BigEndian(fields[|fields| - 1].value))
    else LastSaid(fields[..|fields| - 1], element)
  }

  /** The last readable interval and the last readable algorithm decide; without one the parameter stays. */
  ghost function LastWords(before: Sampling, fields: seq<DecodedField>): Sampling {
    var interval, algorithm := LastSaid(fields, 34), LastSaid(fields, 35);
    Sampling(if interval.Some? then Some(interval.value % 0x1_0000_0000) else before.interval,
             if algorithm.Some? then Some(algorithm.value % 0x100) else before.algorithm)
  }

  /** The sampling parameters after some items: the last words since the last withdrawal of all
      templates, or else what the cache had, or nothing if there was one. */
  ghost function SamplingIn(c: Cache, items: seq<Item>): Sampling {
    LastWords(if SomeWithdrawsAll(items) then NoSampling() else c.sampling, ReadSince(c, items))
  }

  lemma {:induction false} FoldIsLastWords(before: Sampling, fields: seq<DecodedField>)
    ensures ObservedFields(before, fields) == LastWords(before, fields)
  {
    if fields != [] { FoldIsLastWords(before, fields[..|fields| - 1]); }
  }

  lemma {:induction false} ObservedConcat(s: Sampling, a: seq<DecodedField>, b: seq<DecodedField>)
    ensures ObservedFields(s, a + b) == ObservedFields(ObservedFields(s, a), b)
  {
    if b == [] {
      assert a + b == a;
    } else {
      var n := |b| - 1;
      ObservedConcat(s, a, b[..n]);
      assert (a + b)[..|a + b| - 1] == a + b[..n] && (a + b)[|a + b| - 1] == b[n];
    }
  }

  lemma {:induction false} ObservedFlat(s: Sampling, records: seq<DataRecord>)
    ensures ObservedRecords(s, records) == ObservedFields(s, Flat(records))
  {
    if records != [] {
      var n := |records| - 1;
      ObservedFlat(s, records[..n]);
      ObservedConcat(s, Flat(records[..n]), records[n]);
    }
  }

  /** Records read after some fields have the last word over them. */
  lemma {:induction false} LastWordsOver(before: Sampling, fields: seq<DecodedField>, records: seq<DataRecord>)
    ensures ObservedRecords(LastWords(before, fields), records) == LastWords(before, fields + Flat(records))
  {
    FoldIsLastWords(before, fields);
    FoldIsLastWords(before, fields + Flat(records));
    ObservedConcat(before, fields, Flat(records));
    ObservedFlat(ObservedFields(before, fields), records);
  }

  ghost function Named(items: seq<Item>): set<TemplateId> {
    set i | 0 <= i < |items| && items[i].TemplateRecord? :: items[i].template.id
  }

  ghost function Effective(c: Cache, items: seq<Item>): Cache {
    Cache(map id | id in c.templates.Keys + Named(items) && InEffect(c, items, id).Some? :: InEffect(c, items, id).value,
          SamplingIn(c, items))
  }

  /** Item i is an error after the items before it. */
  ghost predicate ErrsAt(c: Cache, items: seq<Item>, i: nat)
    requires i < |items|
  {
    match items[i]
    case TemplateRecord(t) => t.fields != [] && (MinRecordLength(t.fields) == 0 || !Fits(Effective(c, items[..i]), t))
    case DataSet(id, decode) =>
      var t := InEffect(c, items[..i], id);
      id.id >= 256 && t.Some? && decode(t.value).Malformed?
    case Broken => true
  }

  ghost predicate NoErrors(c: Cache, items: seq<Item>) {
    forall i :: 0 <= i < |items| ==> !ErrsAt(c, items, i)
  }

  ghost predicate StopsAt(c: Cache, items: seq<Item>, e: nat) {
    e < |items| && ErrsAt(c, items, e) && forall i :: 0 <= i < e ==> !ErrsAt(c, items, i)
  }

  lemma {:induction false} DecodedAppend(c: Cache, items: seq<Item>, item: Item)
    ensures Decoded(c, items + [item]) ==
            if Decoded(c, items).ok then Applied(Decoded(c, items).cache, item) else Decoded(c, items)
    decreases |items|
  {
    if items == [] {
      assert ([] + [item])[1..] == [];
    } else {
      assert (items + [item])[1..] == items[1..] + [item];
      DecodedAppend(Applied(c, items[0]).cache, items[1..], item);
    }
  }

  lemma {:induction false} NamedOnly(c: Cache, items: seq<Item>, id: TemplateId)
    requires InEffect(c, items, id).Some?
    ensures id in c.templates.Keys + Named(items)
  {
    if items != [] {
      var n := |items| - 1;
      if items[n].TemplateRecord? && items[n].template.id == id {
        assert id in Named(items);
      } else {
        NamedOnly(c, items[..n], id);
        if id in Named(items[..n]) {
          var i :| 0 <= i < n && items[..n][i].TemplateRecord? && items[..n][i].template.id == id;
          assert items[i].TemplateRecord? && items[i].template.id == id;
        }
      }
    }
  }

  lemma {:induction false} EffectiveHas(c: Cache, items: seq<Item>, id: TemplateId)
    ensures id in Effective(c, items).templates <==> InEffect(c, items, id).Some?
    ensures id in Effective(c, items).templates ==> Effective(c, items).templates[id] == InEffect(c, items, id).value
  {
    if InEffect(c, items, id).Some? { NamedOnly(c, items, id); }
  }

  lemma {:induction false} SameCache(a: Cache, b: Cache)
    requires a.sampling == b.sampling
    requires forall id :: id in a.templates <==> id in b.templates
    requires forall id :: id in a.templates ==> a.templates[id] == b.templates[id]
    ensures a == b
  {
    assert a.templates == b.templates;
  }

  lemma {:induction false} EffectiveStart(c: Cache)
    ensures Effective(c, []) == c
  {
    forall id ensures id in Effective(c, []).templates <==> id in c.templates {
      EffectiveHas(c, [], id);
    }
    SameCache(Effective(c, []), c);
  }

  lemma {:induction false} InEffectAppend(c: Cache, items: seq<Item>, item: Item, id: TemplateId)
    ensures InEffect(c, items + [item], id) ==
            match item
            case TemplateRecord(t) =>
              if t.fields == [] && (t.id == id || WithdrawsAll(t)) then None
              else if t.fields != [] && t.id == id then Some(t)
              else InEffect(c, items, id)
            case _ => InEffect(c, items, id)
  {
    assert (items + [item])[..|items|] == items;
  }

  lemma {:induction false} WithdrawnBefore(items: seq<Item>, item: Item)
    ensures SomeWithdrawsAll(items + [item]) <==> SomeWithdrawsAll(items) || (item.TemplateRecord? && WithdrawsAll(item.template))
  {
    var all := items + [item];
    if SomeWithdrawsAll(items) {
      var i :| 0 <= i < |items| && items[i].TemplateRecord? && WithdrawsAll(items[i].template);
      assert all[i] == items[i];
    }
    assert all[|items|] == item;
  }

  lemma {:induction false} SamplingAppend(c: Cache, items: seq<Item>, item: Item)
    ensures SamplingIn(c, items + [item]) ==
            match item
            case TemplateRecord(t) => if WithdrawsAll(t) then NoSampling() else SamplingIn(c, items)
            case DataSet(id, decode) => ObservedRecords(SamplingIn(c, items), OptionsRead(InEffect(c, items, id), id, decode))
            case Broken => SamplingIn(c, items)
  {
    assert (items + [item])[..|items|] == items;
    WithdrawnBefore(items, item);
    if item.DataSet? {
      LastWordsOver(if SomeWithdrawsAll(items) then NoSampling() else c.sampling, ReadSince(c, items),
                    OptionsRead(InEffect(c, items, item.id), item.id, item.decode));
    }
  }

  /** What an accepted item leaves under one ID. */
  lemma {:induction false} AppliedTo(c: Cache, item: Item, id: TemplateId)
    requires Applied(c, item).ok
    ensures var m := Applied(c, item).cache.templates;
            (if id in m then Some(m[id]) else None) ==
            match item
            case TemplateRecord(t) =>
              if t.fields == [] && (t.id == id || WithdrawsAll(t)) then None
              else if t.fields != [] && t.id == id then Some(t)
              else if id in c.templates then Some(c.templates[id]) else None
            case _ => if id in c.templates then Some(c.templates[id]) else None
  {
  }

  lemma {:induction false} ErrsNext(c: Cache, items: seq<Item>, item: Item)
    ensures ErrsAt(c, items + [item], |items|) <==> !Applied(Effective(c, items), item).ok
  {
    assert (items + [item])[..|items|] == items;
    if item.DataSet? { EffectiveHas(c, items, item.id); }
  }

  lemma {:induction false} SamplingNext(c: Cache, items: seq<Item>, item: Item)
    requires Applied(Effective(c, items), item).ok
    ensures Applied(Effective(c, items), item).cache.sampling == SamplingIn(c, items + [item])
  {
    SamplingAppend(c, items, item);
    if item.DataSet? { EffectiveHas(c, items, item.id); }
  }

  /** One more item that is no error does to the cache what it says. */
  lemma {:induction false} EffectiveStep(c: Cache, items: seq<Item>, item: Item)
    requires Applied(Effective(c, items), item).ok
    ensures Applied(Effective(c, items), item).cache == Effective(c, items + [item])
  {
    var left, after := Applied(Effective(c, items), item).cache, Effective(c, items + [item]);
    SamplingNext(c, items, item);
    forall id
      ensures id in left.templates <==> id in after.templates
      ensures id in left.templates ==> left.templates[id] == after.templates[id]
    {
      EffectiveHas(c, items, id);
      EffectiveHas(c, items + [item], id);
      InEffectAppend(c, items, item, id);
      AppliedTo(Effective(c, items), item, id);
    }
    SameCache(left, after);
  }

  /** Decoding succeeds exactly when no item is an error, and then leaves what is in effect. */
  lemma {:induction false} DecodedIsEffective(c: Cache, items: seq<Item>)
    ensures Decoded(c, items).ok <==> NoErrors(c, items)
    ensures Decoded(c, items).ok ==> Decoded(c, items).cache == Effective(c, items)
  {
    if items == [] {
      EffectiveStart(c);
    } else {
      var n := |items| - 1;
      assert items == items[..n] + [items[n]];
      DecodedIsEffective(c, items[..n]);
      DecodedAppend(c, items[..n], items[n]);
      ErrsNext(c, items[..n], items[n]);
      NoErrorsLast(c, items);
      if Decoded(c, items).ok { EffectiveStep(c, items[..n], items[n]); }
    }
  }

  lemma {:induction false} NoErrorsLast(c: Cache, items: seq<Item>)
    requires items != []
    ensures NoErrors(c, items) <==> NoErrors(c, items[..|items| - 1]) && !ErrsAt(c, items, |items| - 1)
  {
    ErrsWithin(c, items, |items| - 1);
  }

  lemma {:induction false} ErrsWithin(c: Cache, items: seq<Item>, n: nat)
    requires n <= |items|
    ensures forall i :: 0 <= i < n ==> (ErrsAt(c, items[..n], i) <==> ErrsAt(c, items, i))
  {
    forall i | 0 <= i < n ensures ErrsAt(c, items[..n], i) <==> ErrsAt(c, items, i) {
      assert items[..n][..i] == items[..i];
    }
  }

  lemma {:induction false} DecodedStops(c: Cache, items: seq<Item>, n: nat)
    requires n <= |items| && !Decoded(c, items[..n]).ok
    ensures Decoded(c, items) == Decoded(c, items[..n])
    decreases |items|
  {
    if n == |items| {
      assert items[..n] == items;
    } else {
      var m := |items| - 1;
      assert items[..m][..n] == items[..n];
      DecodedStops(c, items[..m], n);
      DecodedAppend(c, items[..m], items[m]);
      assert items == items[..m] + [items[m]];
    }
  }

  /** A message fails exactly when it has a first error, and then leaves what was in effect before it. */
  lemma {:induction false} FailedMessage(c: Cache, items: seq<Item>)
    ensures !Decoded(c, items).ok <==> exists e: nat :: StopsAt(c, items, e)
    ensures forall e: nat :: StopsAt(c, items, e) ==> Decoded(c, items) == Progress(Effective(c, items[..e]), false)
  {
    DecodedIsEffective(c, items);
    if !Decoded(c, items).ok {
      var i :| 0 <= i < |items| && ErrsAt(c, items, i);
      var e := FirstError(c, items, i);
    }
    forall e: nat | StopsAt(c, items, e) ensures Decoded(c, items) == Progress(Effective(c, items[..e]), false) {
      StoppedThere(c, items, e);
    }
  }

  lemma {:induction false} FirstError(c: Cache, items: seq<Item>, i: nat) returns (e: nat)
    requires i < |items| && ErrsAt(c, items, i)
    ensures StopsAt(c, items, e)
    decreases i
  {
    if j :| 0 <= j < i && ErrsAt(c, items, j) {
      e := FirstError(c, items, j);
    } else {
      e := i;
    }
  }

  /** Before its first error a message has done what it says. */
  lemma {:induction false} NotYet(c: Cache, items: seq<Item>, e: nat)
    requires StopsAt(c, items, e)
    ensures Decoded(c, items[..e]) == Progress(Effective(c, items[..e]), true)
  {
    ErrsWithin(c, items, e);
    DecodedIsEffective(c, items[..e]);
  }

  lemma {:induction false} StopsThere(c: Cache, items: seq<Item>, e: nat)
    requires e < |items| && ErrsAt(c, items, e)
    ensures Applied(Effective(c, items[..e]), items[e]) == Progress(Effective(c, items[..e]), false)
  {
    var all := items[..e] + [items[e]];
    assert all[..e] == items[..e] && all[e] == items[e];
    ErrsNext(c, items[..e], items[e]);
  }

  lemma {:induction false} StoppedThere(c: Cache, items: seq<Item>, e: nat)
    requires StopsAt(c, items, e)
    ensures Decoded(c, items) == Progress(Effective(c, items[..e]), false)
  {
    NotYet(c, items, e);
    StopsThere(c, items, e);
    FailsFrom(c, items, e, Effective(c, items[..e]));
  }

  lemma {:induction false} FailsFrom(c: Cache, items: seq<Item>, e: nat, left: Cache)
    requires e < |items| && Decoded(c, items[..e]) == Progress(left, true) && Applied(left, items[e]) == Progress(left, false)
    ensures Decoded(c, items) == Progress(left, false)
  {
    DecodedAppend(c, items[..e], items[e]);
    assert items[..e] + [items[e]] == items[..e + 1];
    DecodedStops(c, items, e + 1);
  }

  /** What the cache has under an ID. */
  ghost function Has(c: Cache, id: TemplateId): Option<Template> {
    if id in c.templates then Some(c.templates[id]) else None
  }

  lemma {:induction false} EffectiveIs(c: Cache, items: seq<Item>)
    ensures Effective(c, items) == c <==>
            (forall id :: InEffect(c, items, id) == Has(c, id)) && SamplingIn(c, items) == c.sampling
  {
    var left := Effective(c, items);
    forall id ensures InEffect(c, items, id) == Has(left, id) {
      EffectiveHas(c, items, id);
    }
    if (forall id :: InEffect(c, items, id) == Has(c, id)) && SamplingIn(c, items) == c.sampling {
      forall id
        ensures id in left.templates <==> id in c.templates
        ensures id in left.templates ==> left.templates[id] == c.templates[id]
      {
        assert InEffect(c, items, id) == Has(left, id) == Has(c, id);
      }
      SameCache(left, c);
    }
  }

  /** A message that fails leaves the cache as it was exactly when, before its first error, the last
      word on every template ID is what the cache had, and the last words on the sampling parameters
      since the last withdrawal of all templates leave them as they were. */
  lemma {:induction false} LeftAsItWas(c: Cache, items: seq<Item>, e: nat)
    requires StopsAt(c, items, e)
    ensures Decoded(c, items).cache == c <==>
            (forall id :: InEffect(c, items[..e], id) == Has(c, id)) && SamplingIn(c, items[..e]) == c.sampling
  {
    StoppedThere(c, items, e);
    EffectiveIs(c, items[..e]);
  }

  /** A definition followed by an error: the message fails, and the template stays. */
  lemma {:induction false} PartOfItStays(t: Template)
    requires 1 <= |t.fields| <= MAX_TEMPLATE_FIELDS && MinRecordLength(t.fields) > 0
    ensures Decoded(EmptyCache(), [TemplateRecord(t), Broken]) == Progress(Cache(map[t.id := t], NoSampling()), false)
  {
    var c := EmptyCache();
    EmptyBounded();
    FieldsWithNew(c.templates, t);
    var none: map<TemplateId, Template> := map[];
    assert none.Keys == {} && c.templates[t.id := t] == map[t.id := t];
    assert [TemplateRecord(t), Broken][1..] == [Broken];
  }
}

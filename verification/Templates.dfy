/** One exporter's template cache, and what a message does to it. A message is
    the list of what the decoder meets in it. */
module Templates {
  import Bits
  import opened Wrappers
  import opened Net
  import opened Sums

  const MAX_TEMPLATES: nat := 512
  const MAX_TEMPLATE_FIELDS: nat := 8192
  const VARIABLE_LENGTH: U16 := 65535
  const MIN_DATA_SET_ID: U16 := 256
  const SAMPLING_INTERVAL: U16 := 34
  const SAMPLING_ALGORITHM: U16 := 35

  datatype FieldSpecifier = FieldSpecifier(element: U16, length: U16, enterprise: Option<U32>)

  datatype TemplateId = TemplateId(id: U16)

  datatype Template = Template(id: TemplateId, scopeFieldCount: U16, fields: seq<FieldSpecifier>)

  function MinRecordLength(fields: seq<FieldSpecifier>): nat {
    if fields == [] then 0
    else MinRecordLength(fields[..|fields| - 1]) + if fields[|fields| - 1].length == VARIABLE_LENGTH then 1 else fields[|fields| - 1].length
  }

  datatype Sampling = Sampling(interval: Option<U32>, algorithm: Option<U8>)

  function NoSampling(): Sampling {
    Sampling(None, None)
  }

  datatype DecodedField = DecodedField(element: U16, enterprise: Option<U32>, value: seq<U8>)

  type DataRecord = seq<DecodedField>

  function BigEndian(bytes: seq<U8>): nat {
    if bytes == [] then 0 else BigEndian(bytes[..|bytes| - 1]) * 0x100 + bytes[|bytes| - 1]
  }

  /** An integer of one to eight bytes. */
  function AsInteger(value: seq<U8>): Option<nat> {
    if value == [] || |value| > 8 then None else Some(BigEndian(value))
  }

  /** What one field of options data makes of the sampling parameters, cut to their widths. */
  function ObservedField(s: Sampling, f: DecodedField): Sampling {
    var v := AsInteger(f.value);
    if v.None? then s
    else if f.element == SAMPLING_INTERVAL then s.(interval := Some(v.value % 0x1_0000_0000))
    else if f.element == SAMPLING_ALGORITHM then s.(algorithm := Some(v.value % 0x100))
    else s
  }

  function ObservedFields(s: Sampling, fields: DataRecord): Sampling {
    if fields == [] then s else ObservedField(ObservedFields(s, fields[..|fields| - 1]), fields[|fields| - 1])
  }

  function ObservedRecords(s: Sampling, records: seq<DataRecord>): Sampling {
    if records == [] then s else ObservedFields(ObservedRecords(s, records[..|records| - 1]), records[|records| - 1])
  }

  ghost predicate Says(f: DecodedField, element: U16) {
    f.element == element && 1 <= |f.value| <= 8
  }

  ghost function Pow256(n: nat): (r: nat)
    ensures r > 0
  {
    if n == 0 then 1 else 0x100 * Pow256(n - 1)
  }

  lemma {:induction false} NextByte(high: nat, low: U8, p: nat)
    requires p > 0
    ensures (high * 0x100 + low) / (0x100 * p) == high / p
  {
    var q, r := high / p, high % p;
    assert high * 0x100 + low == q * (0x100 * p) + (r * 0x100 + low) by {
      assert high == q * p + r;
      assert q * p * 0x100 == q * (0x100 * p);
    }
    Bits.DivMod(high * 0x100 + low, 0x100 * p, q, r * 0x100 + low);
  }

  /** Digit k of a number to base 256. */
  ghost function ByteOf(x: nat, k: nat): nat {
    x / Pow256(k) % 0x100
  }

  lemma {:induction false} ByteOfNext(high: nat, low: U8, k: nat)
    ensures ByteOf(high * 0x100 + low, k + 1) == ByteOf(high, k)
    ensures ByteOf(high * 0x100 + low, 0) == low
  {
    NextByte(high, low, Pow256(k));
    assert Pow256(0) == 1;
  }

  lemma {:induction false} BigEndianBelow(bytes: seq<U8>)
    ensures BigEndian(bytes) < Pow256(|bytes|)
  {
    if bytes != [] { BigEndianBelow(bytes[..|bytes| - 1]); }
  }

  /** The integer of some bytes, most significant first: each byte is its own digit to base 256, and
      there is nothing above them. */
  lemma {:induction false} BigEndianDigits(bytes: seq<U8>, i: nat)
    requires i < |bytes|
    ensures ByteOf(BigEndian(bytes), |bytes| - 1 - i) == bytes[i]
    ensures BigEndian(bytes) < Pow256(|bytes|)
  {
    BigEndianBelow(bytes);
    var n := |bytes| - 1;
    if i == n {
      ByteOfNext(BigEndian(bytes[..n]), bytes[n], 0);
    } else {
      BigEndianDigits(bytes[..n], i);
      ByteOfNext(BigEndian(bytes[..n]), bytes[n], n - 1 - i);
    }
  }

  /** A record has no minimum length exactly when every field of it is of length zero. */
  lemma {:induction false} NoMinimumExactly(fields: seq<FieldSpecifier>)
    ensures MinRecordLength(fields) == 0 <==> forall i :: 0 <= i < |fields| ==> fields[i].length == 0
  {
    if fields != [] {
      var n := |fields| - 1;
      NoMinimumExactly(fields[..n]);
      if forall i :: 0 <= i < n ==> fields[..n][i].length == 0 {
        assert forall i :: 0 <= i < n ==> fields[i].length == 0;
      }
    }
  }

  /** The last field that carries a readable interval decides it, and without one it stays; the
      algorithm likewise. */
  lemma {:induction false} LastFieldDecides(s: Sampling, fields: DataRecord, i: int)
    requires -1 <= i < |fields|
    ensures (i >= 0 ==> Says(fields[i], 34)) && (forall j :: i < j < |fields| ==> !Says(fields[j], 34)) ==>
              ObservedFields(s, fields).interval == if i < 0 then s.interval else Some(BigEndian(fields[i].value) % 0x1_0000_0000)
    ensures (i >= 0 ==> Says(fields[i], 35)) && (forall j :: i < j < |fields| ==> !Says(fields[j], 35)) ==>
              ObservedFields(s, fields).algorithm == if i < 0 then s.algorithm else Some(BigEndian(fields[i].value) % 0x100)
  {
    var n := |fields| - 1;
    if 0 <= n && i < n {
      LastFieldDecides(s, fields[..n], i);
      assert fields[n] == fields[|fields| - 1];
    }
  }

  /** What decoding a data set under a template gives. */
  datatype DataResult = Malformed | Records(records: seq<DataRecord>)

  /** What the decoder meets in a message, in order. `Broken` is a set or a record that does not parse. */
  datatype Item = TemplateRecord(template: Template) | DataSet(id: TemplateId, decode: Template -> DataResult) | Broken

  datatype Cache = Cache(templates: map<TemplateId, Template>, sampling: Sampling)

  function EmptyCache(): Cache {
    Cache(map[], NoSampling())
  }

  ghost function FieldsOf(templates: map<TemplateId, Template>): TemplateId -> nat {
    (id: TemplateId) => if id in templates then |templates[id].fields| else 0
  }

  /** The field specifiers of all templates together. */
  ghost function FieldTotal(templates: map<TemplateId, Template>): nat {
    Sum(FieldsOf(templates), templates.Keys)
  }

  ghost predicate Bounded(c: Cache) {
    && |c.templates| <= MAX_TEMPLATES && FieldTotal(c.templates) <= MAX_TEMPLATE_FIELDS
    && forall id :: id in c.templates ==> c.templates[id].id == id
  }

  // ---- What a message means ----

  /** A cache, and whether decoding goes on. */
  datatype Progress = Progress(cache: Cache, ok: bool)

  /** A template is accepted when the cache with it keeps both limits. */
  ghost predicate Fits(c: Cache, t: Template) {
    var templates := c.templates[t.id := t];
    |templates| <= 512 && FieldTotal(templates) <= 8_192
  }

  ghost function Applied(c: Cache, item: Item): Progress {
    match item
    case TemplateRecord(t) =>
      if t.fields == [] then Progress(Withdrawn(c, t.id), true)
      else if MinRecordLength(t.fields) == 0 || !Fits(c, t) then Progress(c, false)
      else Progress(c.(templates := c.templates[t.id := t]), true)
    case DataSet(id, decode) =>
      if id.id < MIN_DATA_SET_ID || id !in c.templates then Progress(c, true)
      else
        var t := c.templates[id];
        (match decode(t)
         case Malformed => Progress(c, false)
         case Records(records) =>
           Progress(if t.scopeFieldCount > 0 then c.(sampling := ObservedRecords(c.sampling, records)) else c, true))
    case Broken => Progress(c, false)
  }

  /** A record without fields withdraws its template; IDs 2 and 3 withdraw everything. */
  ghost function Withdrawn(c: Cache, id: TemplateId): Cache {
    if id.id == 2 || id.id == 3 then EmptyCache() else c.(templates := c.templates - {id})
  }

  /** A message edits the cache up to its first error, and what came before stays. */
  ghost function Decoded(c: Cache, items: seq<Item>): Progress
    decreases |items|
  {
    if items == [] then Progress(c, true)
    else
      var p := Applied(c, items[0]);
      if p.ok then Decoded(p.cache, items[1..]) else p
  }

  // ---- The cache ----

  class TemplateCache {
    var templates: map<TemplateId, Template>
    var fields: nat
    var sampling: Sampling

    ghost function View(): Cache
      reads this
    {
      Cache(templates, sampling)
    }

    /** The running field count is the sum it stands for, and both limits hold. */
    ghost predicate Valid()
      reads this
    {
      fields == FieldTotal(templates) && Bounded(View())
    }

    constructor ()
      ensures Valid() && View() == EmptyCache()
    {
      templates, fields, sampling := map[], 0, NoSampling();
    }

    /** Records or replaces a template unless that would pass a limit. */
    method Insert(t: Template) returns (ok: bool)
      requires Valid()
      modifies this
      ensures Valid() && ok == old(Fits(View(), t))
      ensures View() == if ok then old(View()).(templates := old(templates)[t.id := t]) else old(View())
    {
      FieldsWith(templates, t);
      var count, replaced := |templates| + 1, 0;
      if t.id in templates {
        count, replaced := |templates|, |templates[t.id].fields|;
      }
      var total := fields - replaced + |t.fields|;
      if count > MAX_TEMPLATES || total > MAX_TEMPLATE_FIELDS {
        return false;
      }
      fields, templates := total, templates[t.id := t];
      return true;
    }

    method Remove(id: TemplateId)
      requires Valid()
      modifies this
      ensures Valid() && View() == old(View()).(templates := old(templates) - {id})
    {
      if id in templates {
        FieldsWithout(templates, id);
        fields, templates := fields - |templates[id].fields|, templates - {id};
      } else {
        assert templates - {id} == templates;
      }
    }

    method Clear()
      modifies this
      ensures Valid() && View() == EmptyCache()
    {
      templates, fields, sampling := map[], 0, NoSampling();
    }

    /** One template record of a message. */
    method ApplyRecord(t: Template) returns (ok: bool)
      requires Valid()
      modifies this
      ensures Valid() && Progress(View(), ok) == Applied(old(View()), TemplateRecord(t))
    {
      if t.fields == [] {
        if t.id.id == 2 || t.id.id == 3 {
          Clear();
        } else {
          Remove(t.id);
        }
        return true;
      }
      if MinRecordLength(t.fields) == 0 {
        return false;
      }
      ok := Insert(t);
    }

    /** Reads the sampling parameters out of a record of options data. */
    method ObserveOptionsData(record: DataRecord)
      modifies this`sampling
      ensures sampling == ObservedFields(old(sampling), record)
    {
      for i := 0 to |record|
        invariant sampling == ObservedFields(old(sampling), record[..i])
      {
        assert record[..i + 1][..i] == record[..i];
        sampling := ObservedField(sampling, record[i]);
      }
      assert record[..|record|] == record;
    }

    method ObserveAll(records: seq<DataRecord>)
      modifies this`sampling
      ensures sampling == ObservedRecords(old(sampling), records)
    {
      for i := 0 to |records|
        invariant sampling == ObservedRecords(old(sampling), records[..i])
      {
        assert records[..i + 1][..i] == records[..i];
        ObserveOptionsData(records[i]);
      }
      assert records[..|records|] == records;
    }

    method ApplyData(id: TemplateId, decode: Template -> DataResult) returns (ok: bool)
      requires Valid()
      modifies this
      ensures Valid() && Progress(View(), ok) == Applied(old(View()), DataSet(id, decode))
    {
      if id.id < MIN_DATA_SET_ID || id !in templates {
        return true;
      }
      var t := templates[id];
      match decode(t) {
        case Malformed =>
          return false;
        case Records(records) =>
          if t.scopeFieldCount > 0 {
            ObserveAll(records);
          }
          return true;
      }
    }

    /** Decodes a message into the cache; false when it met an error. */
    method DecodeMessage(items: seq<Item>) returns (ok: bool)
      requires Valid()
      modifies this
      ensures Valid() && Progress(View(), ok) == Decoded(old(View()), items)
    {
      var i := 0;
      ok := true;
      while i < |items| && ok
        invariant i <= |items| && Valid()
        invariant Decoded(old(View()), items) == if ok then Decoded(View(), items[i..]) else Progress(View(), false)
      {
        assert items[i..][1..] == items[i + 1..];
        match items[i] {
          case TemplateRecord(t) => ok := ApplyRecord(t);
          case DataSet(id, decode) => ok := ApplyData(id, decode);
          case Broken => ok := false;
        }
        i := i + 1;
      }
    }
  }

  lemma {:induction false} FieldsWithout(templates: map<TemplateId, Template>, id: TemplateId)
    requires id in templates
    ensures FieldTotal(templates - {id}) == FieldTotal(templates) - |templates[id].fields|
    ensures |templates - {id}| == |templates| - 1
  {
    var rest := templates - {id};
    assert rest.Keys == templates.Keys - {id};
    SumWithout(FieldsOf(templates), templates.Keys, id);
    SumSame(FieldsOf(rest), FieldsOf(templates), rest.Keys);
  }

  lemma {:induction false} FieldsWithNew(templates: map<TemplateId, Template>, t: Template)
    requires t.id !in templates
    ensures FieldTotal(templates[t.id := t]) == FieldTotal(templates) + |t.fields|
    ensures |templates[t.id := t]| == |templates| + 1
  {
    var all := templates[t.id := t];
    FieldsWithout(all, t.id);
    assert all - {t.id} == templates;
  }

  lemma {:induction false} FieldsWith(templates: map<TemplateId, Template>, t: Template)
    ensures FieldTotal(templates[t.id := t])
         == FieldTotal(templates) + |t.fields| - if t.id in templates then |templates[t.id].fields| else 0
    ensures |templates[t.id := t]| == |templates| + if t.id in templates then 0 else 1
  {
    if t.id in templates {
      FieldsWithout(templates, t.id);
      FieldsWithNew(templates - {t.id}, t);
      assert (templates - {t.id})[t.id := t] == templates[t.id := t];
    } else {
      FieldsWithNew(templates, t);
    }
  }

  // ---- What a message can do ----

  lemma {:induction false} WithdrawnBounded(c: Cache, id: TemplateId)
    requires Bounded(c)
    ensures Bounded(Withdrawn(c, id))
  {
    if id.id == 2 || id.id == 3 {
      EmptyBounded();
    } else if id in c.templates {
      FieldsWithout(c.templates, id);
    } else {
      assert c.templates - {id} == c.templates;
    }
  }

  lemma {:induction false} EmptyBounded()
    ensures Bounded(EmptyCache())
  {
    var none: map<TemplateId, Template> := map[];
    assert none.Keys == {};
  }

  lemma {:induction false} AppliedBounded(c: Cache, item: Item)
    requires Bounded(c)
    ensures Bounded(Applied(c, item).cache)
  {
    match item
    case TemplateRecord(t) =>
      if t.fields == [] { WithdrawnBounded(c, t.id); }
    case DataSet(_, _) =>
    case Broken =>
  }

  /** No message takes a cache past its limits. */
  lemma {:induction false} DecodedBounded(c: Cache, items: seq<Item>)
    requires Bounded(c)
    ensures Bounded(Decoded(c, items).cache)
    ensures |Decoded(c, items).cache.templates| <= 512 && FieldTotal(Decoded(c, items).cache.templates) <= 8_192
    decreases |items|
  {
    if items != [] {
      AppliedBounded(c, items[0]);
      DecodedBounded(Applied(c, items[0]).cache, items[1..]);
    }
  }

  /** A message that spells out a definition that can describe a record. */
  ghost predicate Defines(items: seq<Item>, t: Template) {
    TemplateRecord(t) in items && t.fields != [] && MinRecordLength(t.fields) > 0
  }

  /** Every template after a message was there before it or is defined in it. */
  lemma {:induction false} DecodedLearns(c: Cache, items: seq<Item>, id: TemplateId)
    requires id in Decoded(c, items).cache.templates
    ensures var t := Decoded(c, items).cache.templates[id];
            (id in c.templates && c.templates[id] == t) || (t.id == id && Defines(items, t))
    decreases |items|
  {
    if items != [] && Applied(c, items[0]).ok {
      DecodedLearns(Applied(c, items[0]).cache, items[1..], id);
    }
  }
}

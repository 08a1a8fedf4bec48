/**
 * The `descr` field of a host override carries the whole endpoint as a JSON
 * object. `Encode` writes it the way `json.Marshal` writes an
 * `UnboundEndpoint` (field order of the struct, `omitempty` on targets and
 * labels, map keys in ascending order); `Decode` reads it back the way
 * `json.Unmarshal` fills a fresh `UnboundEndpoint`:
 *  - an object key selects a field when it equals the field name up to case
 *    folding, and keys naming no field are skipped;
 *  - `null` leaves a string field as it is, and empties a slice or a map;
 *  - a repeated `targets` key writes into the slice decoded before, so a
 *    `null` element keeps what that slice (or its spare capacity) held there;
 *  - a repeated `labels` key adds to the map decoded before, a `null` label
 *    value stores `""`;
 *  - a value of any other JSON type for a field is an error.
 * The main result is `DecodeEncode`: decoding the encoding gives the endpoint back.
 */
module Codec {
  import opened Wrappers
  import opened Types
  import opened Json
  import opened KeyOrder

  // ---------------------------------------------------------------------------
  // Encoding

  function StringItems(ss: seq<string>): (vs: seq<Value>)
    ensures |vs| == |ss|
    ensures forall i | 0 <= i < |ss| :: vs[i] == String(ss[i])
  {
    if ss == [] then [] else [String(ss[0])] + StringItems(ss[1..])
  }

  /** The labels map as JSON object members, keys strictly ascending. */
  function LabelMembers(labels: map<string, string>): (ms: seq<Member>)
    ensures |ms| == |labels|
    ensures forall i | 0 <= i < |ms| :: ms[i].key in labels && ms[i].value == String(labels[ms[i].key])
    ensures forall i, j | 0 <= i < j < |ms| :: Below(ms[i].key, ms[j].key) && ms[i].key != ms[j].key
    decreases |labels|
  {
    if labels == map[] then []
    else
      var k := Least(labels.Keys);
      var others := labels - {k};
      assert others.Keys == labels.Keys - {k};
      var rest := LabelMembers(others);
      assert forall j | 0 <= j < |rest| :: rest[j].key in others && rest[j].key != k && Below(k, rest[j].key);
      var ms := [Member(k, String(labels[k]))] + rest;
      assert forall i | 1 <= i < |ms| :: ms[i] == rest[i - 1];
      ms
  }

  /** The JSON object `json.Marshal` makes of an endpoint. */
  function EndpointJson(e: Endpoint): Value {
    Object(
      [Member("dnsName", String(e.dnsName))]
      + (if e.targets == [] then [] else [Member("targets", Array(StringItems(e.targets)))])
      + (if e.labels == map[] then [] else [Member("labels", Object(LabelMembers(e.labels)))])
      + [Member("recordType", String(e.recordType))])
  }

  function Encode(e: Endpoint): (descr: string)
    ensures descr != [] && descr[0] == '{'
  {
    SerializeStart(EndpointJson(e));
    Serialize(EndpointJson(e))
  }

  // ---------------------------------------------------------------------------
  // Decoding

  /** A partly filled `UnboundEndpoint`; `spare` is the slice capacity beyond `targets`. */
  datatype Decoded = Decoded(
    dnsName: string,
    targets: seq<string>,
    spare: seq<string>,
    labels: map<string, string>,
    recordType: string)

  const Fresh := Decoded("", [], [], map[], "")

  /**
   * Case folding of one character as Go's encoding/json compares field names:
   * ASCII letters, and the two non-ASCII characters that fold onto ASCII
   * letters (LATIN SMALL LETTER LONG S and KELVIN SIGN).
   */
  function FoldChar(c: char): char {
    if 'a' <= c <= 'z' then (c as int - 32) as char
    else if c == 'ſ' then 'S'
    else if c == 'K' then 'K'
    else c
  }

  /** `a` and `b` are the same name up to case folding. */
  predicate FoldEqual(a: string, b: string) {
    |a| == |b| && (a == [] || (FoldChar(a[0]) == FoldChar(b[0]) && FoldEqual(a[1..], b[1..])))
  }

  /** A JSON value stored into a Go string that held `current`. */
  function StoreString(v: Value, current: string): (r: Result<string, string>)
    ensures r.Success? <==> v.String? || v.Null?
    ensures r.Success? ==> r.value == if v.String? then v.text else current
  {
    match v
    case String(t) => Success(t)
    case Null => Success(current)
    case _ => Failure("cannot unmarshal into Go value of type string")
  }

  /**
   * Array elements stored into a slice whose backing array holds `backing`:
   * element `i` overwrites slot `i`, the slots after the last element stay.
   * `StoreItemsMeaning` states what each slot holds.
   */
  function StoreItems(items: seq<Value>, backing: seq<string>): (r: Result<seq<string>, string>)
    ensures r.Success? ==> |r.value| >= |items| && |r.value| >= |backing|
    ensures r.Success? ==> r.value[|items|..] == if |items| < |backing| then backing[|items|..] else []
  {
    if items == [] then Success(backing)
    else
      var kept := if backing != [] then backing[0] else "";
      var head :- StoreString(items[0], kept);
      var tail :- StoreItems(items[1..], if backing != [] then backing[1..] else []);
      Success([head] + tail)
  }

  /** The slot a decoded array element leaves: its string, or for `null` what the backing array held. */
  function Slot(v: Value, backing: seq<string>, i: nat): string {
    if v.String? then v.text else if i < |backing| then backing[i] else ""
  }

  /**
   * Storing array elements fails exactly when one of them is neither a string
   * nor `null`; otherwise slot `i` holds what element `i` leaves there.
   */
  lemma {:induction false} StoreItemsMeaning(items: seq<Value>, backing: seq<string>)
    ensures StoreItems(items, backing).Success? <==> forall i | 0 <= i < |items| :: items[i].String? || items[i].Null?
    ensures StoreItems(items, backing).Success? ==>
      forall i | 0 <= i < |items| :: StoreItems(items, backing).value[i] == Slot(items[i], backing, i)
  {
    if items != [] {
      var tail := items[1..];
      var spare := if backing != [] then backing[1..] else [];
      StoreItemsMeaning(tail, spare);
      assert forall i | 1 <= i < |items| :: items[i] == tail[i - 1];
      assert forall i | 1 <= i < |items| :: Slot(items[i], backing, i) == Slot(tail[i - 1], spare, i - 1);
      var r := StoreItems(items, backing);
      if r.Success? {
        var more := StoreItems(tail, spare).value;
        assert r.value == [r.value[0]] + more;
        forall i | 0 <= i < |items| ensures r.value[i] == Slot(items[i], backing, i) {
          if i > 0 {
            assert r.value[i] == more[i - 1];
          }
        }
      }
    }
  }

  /** Position of the last member with key `k`, or -1. */
  function LastMember(members: seq<Member>, k: string): (i: int)
    ensures -1 <= i < |members|
    ensures i >= 0 ==> members[i].key == k
    ensures forall j | i < j < |members| :: members[j].key != k
  {
    if members == [] then -1
    else
      var t := LastMember(members[1..], k);
      assert forall j | 1 <= j < |members| :: members[j] == members[1..][j - 1];
      if t >= 0 then t + 1 else if members[0].key == k then 0 else -1
  }

  /** A JSON value as a label value: a string, or `""` for `null`. */
  function LabelValue(v: Value): string {
    if v.String? then v.text else ""
  }

  /** Object members added to a Go map that held `labels`; `null` stores the zero string. */
  function StoreLabels(members: seq<Member>, labels: map<string, string>): (r: Result<map<string, string>, string>)
    ensures r.Success? ==> labels.Keys <= r.value.Keys
    decreases members
  {
    if members == [] then Success(labels)
    else
      var value :- StoreString(members[0].value, "");
      StoreLabels(members[1..], labels[members[0].key := value])
  }

  /**
   * Storing object members into a map fails exactly when a member value is
   * neither a string nor `null`; otherwise the map gains the member keys, and
   * each key holds the value of its last member.
   */
  lemma {:induction false} StoreLabelsMeaning(members: seq<Member>, labels: map<string, string>, k: string)
    ensures StoreLabels(members, labels).Success? <==>
      forall i | 0 <= i < |members| :: members[i].value.String? || members[i].value.Null?
    ensures StoreLabels(members, labels).Success? ==>
      (k in StoreLabels(members, labels).value <==> k in labels || LastMember(members, k) >= 0)
    ensures StoreLabels(members, labels).Success? && LastMember(members, k) >= 0 ==>
      StoreLabels(members, labels).value[k] == LabelValue(members[LastMember(members, k)].value)
    ensures StoreLabels(members, labels).Success? && LastMember(members, k) < 0 && k in labels ==>
      StoreLabels(members, labels).value[k] == labels[k]
    decreases members
  {
    if members != [] {
      var tail := members[1..];
      assert forall i | 1 <= i < |members| :: members[i] == tail[i - 1];
      var m := members[0];
      if m.value.String? || m.value.Null? {
        StoreLabelsMeaning(tail, labels[m.key := LabelValue(m.value)], k);
      }
    }
  }

  function DecodeMember(d: Decoded, m: Member): (r: Result<Decoded, string>) {
    if FoldEqual(m.key, "dnsName") then
      var name :- StoreString(m.value, d.dnsName);
      Success(d.(dnsName := name))
    else if FoldEqual(m.key, "targets") then
      match m.value
      case Null => Success(d.(targets := [], spare := []))
      case Array(items) =>
        var backing :- StoreItems(items, d.targets + d.spare);
        if items == [] then Success(d.(targets := [], spare := []))
        else Success(d.(targets := backing[..|items|], spare := backing[|items|..]))
      case _ => Failure("cannot unmarshal into Go struct field targets")
    else if FoldEqual(m.key, "labels") then
      match m.value
      case Null => Success(d.(labels := map[]))
      case Object(ms) =>
        var labels :- StoreLabels(ms, d.labels);
        Success(d.(labels := labels))
      case _ => Failure("cannot unmarshal into Go struct field labels")
    else if FoldEqual(m.key, "recordType") then
      var recordType :- StoreString(m.value, d.recordType);
      Success(d.(recordType := recordType))
    else Success(d)
  }

  function DecodeMembers(d: Decoded, ms: seq<Member>): (r: Result<Decoded, string>)
    decreases ms
  {
    if ms == [] then Success(d)
    else
      var d' :- DecodeMember(d, ms[0]);
      DecodeMembers(d', ms[1..])
  }

  /** `json.Unmarshal` of a description into a fresh endpoint. */
  function Decode(descr: string): (r: Result<Endpoint, string>)
    ensures ParseJson(descr).Failure? ==> r.Failure?
    ensures r.Success? ==> ParseJson(descr).Success? && ParseJson(descr).value.Object?
  {
    var v :- ParseJson(descr);
    if !v.Object? then Failure("cannot unmarshal into Go value of type UnboundEndpoint")
    else
      var d :- DecodeMembers(Fresh, v.members);
      Success(Endpoint(d.dnsName, d.targets, d.labels, d.recordType))
  }

  // ---------------------------------------------------------------------------
  // Round trip

  lemma EncodingWellFormed(e: Endpoint)
    ensures WellFormed(EndpointJson(e))
  {
    var ms := EndpointJson(e).members;
    forall i | 0 <= i < |ms| ensures WellFormed(ms[i].value) {
      if ms[i].value.Array? {
        var items := ms[i].value.items;
        assert items == StringItems(e.targets);
        assert forall j | 0 <= j < |items| :: WellFormed(items[j]);
      }
      if ms[i].value.Object? {
        var ls := ms[i].value.members;
        assert ls == LabelMembers(e.labels);
        assert forall j | 0 <= j < |ls| :: WellFormed(ls[j].value);
      }
    }
  }

  lemma {:induction false} DecodeMembersAppend(d: Decoded, a: seq<Member>, b: seq<Member>)
    ensures DecodeMembers(d, a + b)
         == (match DecodeMembers(d, a)
             case Success(d') => DecodeMembers(d', b)
             case Failure(e) => Failure(e))
    decreases a
  {
    if a == [] {
      assert a + b == b;
    } else {
      assert (a + b)[0] == a[0];
      assert (a + b)[1..] == a[1..] + b;
      match DecodeMember(d, a[0])
      case Success(d') => DecodeMembersAppend(d', a[1..], b);
      case Failure(_) =>
    }
  }

  lemma {:induction false} StoreItemsFresh(ss: seq<string>)
    ensures StoreItems(StringItems(ss), []) == Success(ss)
  {
    if ss != [] {
      assert StringItems(ss)[1..] == StringItems(ss[1..]);
      StoreItemsFresh(ss[1..]);
      assert [ss[0]] + ss[1..] == ss;
    }
  }

  lemma {:induction false} StoreLabelMembers(labels: map<string, string>, acc: map<string, string>)
    ensures StoreLabels(LabelMembers(labels), acc) == Success(acc + labels)
    decreases |labels|
  {
    if labels != map[] {
      var k := Least(labels.Keys);
      var others := labels - {k};
      assert others.Keys == labels.Keys - {k};
      var ms := LabelMembers(labels);
      assert ms == [Member(k, String(labels[k]))] + LabelMembers(others);
      assert ms[1..] == LabelMembers(others);
      assert StoreLabels(ms, acc) == StoreLabels(ms[1..], acc[k := labels[k]]);
      StoreLabelMembers(others, acc[k := labels[k]]);
      MergeStep(acc, labels, k);
    } else {
      assert acc + labels == acc;
    }
  }

  lemma MergeStep(acc: map<string, string>, labels: map<string, string>, k: string)
    requires k in labels
    ensures acc[k := labels[k]] + (labels - {k}) == acc + labels
  {
    var lhs, rhs := acc[k := labels[k]] + (labels - {k}), acc + labels;
    assert lhs.Keys == rhs.Keys;
    forall j | j in lhs ensures lhs[j] == rhs[j] {
    }
  }

  lemma {:induction false} FoldEqualReflexive(a: string)
    ensures FoldEqual(a, a)
  {
    if a != [] {
      FoldEqualReflexive(a[1..]);
    }
  }

  /** Each field name selects its own field and no earlier one. */
  lemma FieldNames()
    ensures FoldEqual("dnsName", "dnsName")
    ensures FoldEqual("targets", "targets") && !FoldEqual("targets", "dnsName")
    ensures FoldEqual("labels", "labels") && !FoldEqual("labels", "dnsName") && !FoldEqual("labels", "targets")
    ensures FoldEqual("recordType", "recordType") && !FoldEqual("recordType", "dnsName")
    ensures !FoldEqual("recordType", "targets") && !FoldEqual("recordType", "labels")
  {
    FoldEqualReflexive("dnsName");
    FoldEqualReflexive("targets");
    FoldEqualReflexive("labels");
    FoldEqualReflexive("recordType");
    assert FoldChar('t') != FoldChar('d');
  }

  lemma DecodeOne(d: Decoded, m: Member)
    ensures DecodeMembers(d, [m]) == DecodeMember(d, m)
  {
    assert [m][1..] == [];
  }

  lemma DecodeDnsName(d: Decoded, name: string)
    ensures DecodeMembers(d, [Member("dnsName", String(name))]) == Success(d.(dnsName := name))
  {
    FieldNames();
    DecodeOne(d, Member("dnsName", String(name)));
  }

  lemma DecodeTargets(d: Decoded, targets: seq<string>)
    requires targets != [] && d.targets == [] && d.spare == []
    ensures DecodeMembers(d, [Member("targets", Array(StringItems(targets)))]) == Success(d.(targets := targets))
  {
    var items := StringItems(targets);
    FieldNames();
    StoreItemsFresh(targets);
    assert d.targets + d.spare == [];
    assert items != [];
    assert targets[..|items|] == targets && targets[|items|..] == [];
    assert DecodeMember(d, Member("targets", Array(items))) == Success(d.(targets := targets, spare := []));
    DecodeOne(d, Member("targets", Array(items)));
  }

  lemma DecodeLabels(d: Decoded, labels: map<string, string>)
    requires labels != map[] && d.labels == map[]
    ensures DecodeMembers(d, [Member("labels", Object(LabelMembers(labels)))]) == Success(d.(labels := labels))
  {
    FieldNames();
    StoreLabelMembers(labels, map[]);
    assert map[] + labels == labels;
    DecodeOne(d, Member("labels", Object(LabelMembers(labels))));
  }

  lemma DecodeRecordType(d: Decoded, recordType: string)
    ensures DecodeMembers(d, [Member("recordType", String(recordType))]) == Success(d.(recordType := recordType))
  {
    FieldNames();
    DecodeOne(d, Member("recordType", String(recordType)));
  }

  lemma DecodeEncodedMembers(e: Endpoint)
    ensures DecodeMembers(Fresh, EndpointJson(e).members) == Success(Decoded(e.dnsName, e.targets, [], e.labels, e.recordType))
  {
    var dn := [Member("dnsName", String(e.dnsName))];
    var tg := if e.targets == [] then [] else [Member("targets", Array(StringItems(e.targets)))];
    var lb := if e.labels == map[] then [] else [Member("labels", Object(LabelMembers(e.labels)))];
    var rt := [Member("recordType", String(e.recordType))];
    assert EndpointJson(e).members == dn + tg + lb + rt;
    var d1 := Fresh.(dnsName := e.dnsName);
    var d2 := if e.targets == [] then d1 else d1.(targets := e.targets);
    var d3 := if e.labels == map[] then d2 else d2.(labels := e.labels);
    var d4 := d3.(recordType := e.recordType);
    DecodeDnsName(Fresh, e.dnsName);
    if e.targets != [] {
      DecodeTargets(d1, e.targets);
    }
    if e.labels != map[] {
      DecodeLabels(d2, e.labels);
    }
    DecodeRecordType(d3, e.recordType);
    DecodeMembersAppend(Fresh, dn, tg);
    DecodeMembersAppend(Fresh, dn + tg, lb);
    DecodeMembersAppend(Fresh, dn + tg + lb, rt);
  }

  /** Reading back what `Encode` wrote gives the same endpoint. */
  lemma DecodeEncode(e: Endpoint)
    ensures Decode(Encode(e)) == Success(e)
  {
    EncodingWellFormed(e);
    ParseSerializeRoundTrip(EndpointJson(e));
    DecodeEncodedMembers(e);
  }
}

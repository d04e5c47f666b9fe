/** The value a cJSON tree denotes. */
module Json {
  import opened CString

  datatype Json =
    | JNull
    | JBool(b: bool)
    | JNumber(r: real)
    | JString(s: Str)
    | JArray(elems: seq<Json>)
    | JObject(members: seq<Member>)

  /** Members keep their order, and a key may occur more than once. */
  datatype Member = Member(key: Str, value: Json)

  const NULL_TEXT := Ch(110, Ch(117, Ch(108, Ch(108, Nul))))
  const TRUE_TEXT := Ch(116, Ch(114, Ch(117, Ch(101, Nul))))
  const FALSE_TEXT := Ch(102, Ch(97, Ch(108, Ch(115, Ch(101, Nul)))))

  const INT_MIN := -0x8000_0000
  const INT_MAX := 0x7fff_ffff

  predicate IsInt32(r: real) {
    r.Floor as real == r && INT_MIN <= r.Floor <= INT_MAX
  }

  /** Every number in the value is a 32-bit integer. */
  predicate IntegersOnly(v: Json)
    decreases v
  {
    match v
    case JNumber(r) => IsInt32(r)
    case JArray(elems) => AllIntegers(elems)
    case JObject(members) => AllIntegerMembers(members)
    case _ => true
  }

  predicate AllIntegers(vs: seq<Json>)
    decreases vs
  {
    vs == [] || (IntegersOnly(vs[0]) && AllIntegers(vs[1..]))
  }

  predicate AllIntegerMembers(ms: seq<Member>)
    decreases ms
  {
    ms == [] || (IsIntegerMember(ms[0]) && AllIntegerMembers(ms[1..]))
  }

  predicate IsIntegerMember(m: Member)
    decreases m
  {
    IntegersOnly(m.value)
  }

  /** The first member whose key is s up to case, or the number of members. */
  function FirstKey(ms: seq<Member>, s: Str): (r: nat)
    ensures r <= |ms|
    ensures forall i :: 0 <= i < r ==> !SameNoCase(ms[i].key, s)
    ensures r < |ms| ==> SameNoCase(ms[r].key, s)
  {
    if ms == [] || SameNoCase(ms[0].key, s) then 0 else
    assert forall i :: 0 < i < |ms| ==> ms[i] == ms[1..][i - 1];
    1 + FirstKey(ms[1..], s)
  }

  lemma {:induction false} FirstKeyUnique(ms: seq<Member>, s: Str, k: nat)
    requires k <= |ms|
    requires forall i :: 0 <= i < k ==> !SameNoCase(ms[i].key, s)
    requires k < |ms| ==> SameNoCase(ms[k].key, s)
    ensures k == FirstKey(ms, s)
  {
  }
}

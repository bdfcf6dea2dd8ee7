/** Attribute values as JSON scalars, with the equality the source compares them by. */
module Values {
  datatype Json = Null | Bool(b: bool) | Int(i: int) | Float(r: real) | Str(s: string)

  predicate IsNumber(v: Json) {
    v.Bool? || v.Int? || v.Float?
  }

  function Number(v: Json): real
    requires IsNumber(v)
  {
    match v
    case Bool(b) => if b then 1.0 else 0.0
    case Int(i) => i as real
    case Float(r) => r
  }

  /** Python's `==`: numbers and booleans are compared by value, so `1 == 1.0 == True`. */
  predicate Same(a: Json, b: Json) {
    if IsNumber(a) && IsNumber(b) then Number(a) == Number(b) else a == b
  }

  /** Python's truth value. */
  predicate Truthy(v: Json) {
    if IsNumber(v) then Number(v) != 0.0 else v.Str? && v.s != ""
  }

  predicate SameSeq(a: seq<Json>, b: seq<Json>) {
    |a| == |b| && forall i :: 0 <= i < |a| ==> Same(a[i], b[i])
  }

  type Payload = map<string, Json>

  /** Two payloads that differ at most in how an equal number is written. */
  predicate Similar(p: Payload, q: Payload) {
    p.Keys == q.Keys && forall k :: k in p ==> Same(p[k], q[k])
  }

  lemma SimilarIsSymmetric(p: Payload, q: Payload)
    ensures Similar(p, q) ==> Similar(q, p)
  {
  }

  lemma SimilarIsTransitive(p: Payload, q: Payload, r: Payload)
    requires Similar(p, q) && Similar(q, r)
    ensures Similar(p, r)
  {
    assert p.Keys == r.Keys;
    forall k | k in p ensures Same(p[k], r[k]) {
      assert k in q && Same(p[k], q[k]) && Same(q[k], r[k]);
    }
  }

  /** Numbers of different types and booleans are compared by value. */
  lemma SameAcrossTypes(b: bool, i: int, r: real)
    ensures Same(Int(i), Float(r)) <==> i as real == r
    ensures Same(Bool(b), Int(i)) <==> i == if b then 1 else 0
    ensures Same(Bool(b), Float(r)) <==> r == if b then 1.0 else 0.0
  {
  }

  /** Values of one type, and strings and null beside anything, are the same only if they are equal. */
  lemma SameWithinType(v: Json, w: Json)
    ensures v.Null? || v.Str? || w.Null? || w.Str? ==> (Same(v, w) <==> v == w)
    ensures (v.Bool? && w.Bool?) || (v.Int? && w.Int?) || (v.Float? && w.Float?) ==> (Same(v, w) <==> v == w)
    ensures Same(v, w) <==> Same(w, v)
  {
  }

  lemma FalsyValues(v: Json)
    ensures !Truthy(v) <==> v in {Null, Bool(false), Int(0), Float(0.0), Str("")}
  {
  }
}

/** The framing of what `compute_request_hash` feeds to SHA-256. */
module RequestHash {

  type Bytes = seq<bv8>

  const LF: bv8 := 10

  /** A hasher that keeps what it was fed; the digest is taken to be injective in it. */
  class Hasher {
    var fed: Bytes

    constructor ()
      ensures fed == []
    {
      fed := [];
    }

    method Update(chunk: Bytes)
      modifies this
      ensures fed == old(fed) + chunk
    {
      fed := fed + chunk;
    }
  }

  /** The bytes hashed for a request, in the order they are fed. */
  function Frame(verb: Bytes, pathAndQuery: Bytes, body: Bytes): Bytes {
    verb + [LF] + pathAndQuery + [LF] + body
  }

  method ComputeRequestHash(verb: Bytes, pathAndQuery: Bytes, body: Bytes) returns (digest: Bytes)
    ensures digest == Frame(verb, pathAndQuery, body)
    ensures digest == verb + [10] + pathAndQuery + [10] + body
  {
    var h := new Hasher();
    h.Update(verb);
    h.Update([LF]);
    h.Update(pathAndQuery);
    h.Update([LF]);
    h.Update(body);
    digest := h.fed;
  }

  /** A prefix without the separator is determined by what follows its first separator. */
  lemma {:induction false} FirstSeparator(a: Bytes, b: Bytes, x: Bytes, y: Bytes)
    requires LF !in a && LF !in b && a + [LF] + x == b + [LF] + y
    ensures a == b && x == y
  {
    var s, t := a + [LF] + x, b + [LF] + y;
    assert s[|a|] == LF && t[|b|] == LF;
    assert |a| == |b|;
    assert s[..|a|] == a && t[..|b|] == b;
    assert s[|a| + 1..] == x && t[|b| + 1..] == y;
  }

  /** Requests that differ in method, target or body never share what is hashed. */
  lemma FrameInjective(v1: Bytes, p1: Bytes, b1: Bytes, v2: Bytes, p2: Bytes, b2: Bytes)
    requires 10 !in v1 && 10 !in v2 && 10 !in p1 && 10 !in p2
    requires Frame(v1, p1, b1) == Frame(v2, p2, b2)
    ensures v1 == v2 && p1 == p2 && b1 == b2
  {
    var r1, r2 := p1 + [LF] + b1, p2 + [LF] + b2;
    assert Frame(v1, p1, b1) == v1 + [LF] + r1;
    assert Frame(v2, p2, b2) == v2 + [LF] + r2;
    FirstSeparator(v1, v2, r1, r2);
    FirstSeparator(p1, p2, b1, b2);
  }
}

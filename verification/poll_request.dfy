/**
 * The vote request a candidate sends to every peer. Equality looks only at
 * the request id, the term and the candidate; the hash code is a wrapping
 * 32-bit polynomial over the same three fields.
 *
 * The request id is an arbitrary object, so its type is a parameter and its
 * `equals` and `hashCode` are passed in. The candidate is a Java `String`,
 * whose `equals` compares contents (Dafny's `==` on strings); its
 * `hashCode` is passed in as well.
 */
module PollRequests {
  import opened JavaInt

  datatype PollRequest<Id> = PollRequest(
    id: Id,
    term: Long,
    candidate: string,
    lastLogIndex: Long,
    lastLogTerm: Long)

  /** What `equals(Object)` can be handed: null, a poll request, or any other object. */
  datatype JavaObject<Id> = Null | Poll(request: PollRequest<Id>) | Other

  /** `equals`: the other object must be a poll request whose id equals this
      one's (asked of the other's id, as the source does) and whose term and
      candidate match. The last log index and term are not compared. */
  function Equals<Id>(self: PollRequest<Id>, other: JavaObject<Id>, idEquals: (Id, Id) -> bool): (r: bool)
    ensures !other.Poll? ==> !r
    ensures r ==> other.request.term == self.term && other.request.candidate == self.candidate
    ensures other.Poll? ==> (r <==> idEquals(other.request.id, self.id) && SameVote(self, other.request))
  {
    match other
    case Poll(request) =>
      idEquals(request.id, self.id) && request.term == self.term && request.candidate == self.candidate
    case _ => false
  }

  /** Same term and same candidate: the part of equality that does not involve the id. */
  predicate SameVote<Id>(a: PollRequest<Id>, b: PollRequest<Id>)
  {
    a.term == b.term && a.candidate == b.candidate
  }

  /** `hashCode`, step by step in Java `int` arithmetic. It equals one
      polynomial over the three hashed fields, wrapped once at the end. */
  function HashCode<Id>(self: PollRequest<Id>, idHash: Id -> Int32, stringHash: string -> Int32): (h: Int32)
    ensures h == Wrap32(37 * 37 * 37 * 23 + 37 * 37 * (idHash(self.id) as int)
                        + 37 * (LongHash(self.term) as int) + stringHash(self.candidate) as int)
  {
    var i, t, c := idHash(self.id), LongHash(self.term), stringHash(self.candidate);
    var h0 := 23;
    var h1 := Add32(Mul32(37, h0), i);
    var h2 := Add32(Mul32(37, h1), t);
    var x1 := 37 * 23 + i as int;
    var x2 := 37 * x1 + t as int;
    assert Wrap32(23) == 23;
    HashStep(23, i);
    assert h1 == Wrap32(x1);
    HashStep(x1, t);
    assert h2 == Wrap32(x2);
    HashStep(x2, c);
    Add32(Mul32(37, h2), c)
  }

  // ---- relations on ids and requests ------------------------------------------

  ghost predicate IsEquivalence<T(!new)>(rel: (T, T) -> bool)
  {
    && (forall x :: rel(x, x))
    && (forall x, y :: rel(x, y) ==> rel(y, x))
    && (forall x, y, z :: rel(x, y) && rel(y, z) ==> rel(x, z))
  }

  /** A hash function agrees with an equality when equal values hash alike. */
  ghost predicate HashAgrees<T(!new)>(rel: (T, T) -> bool, hash: T -> Int32)
  {
    forall x, y :: rel(x, y) ==> hash(x) == hash(y)
  }

  /** Request equality as a binary relation. */
  function RequestEquality<Id>(idEquals: (Id, Id) -> bool): (eq: (PollRequest<Id>, PollRequest<Id>) -> bool)
  {
    (a: PollRequest<Id>, b: PollRequest<Id>) => Equals(a, Poll(b), idEquals)
  }

  // ---- lemmas -------------------------------------------------------------------

  /** Every accessor returns what the full constructor was given. */
  lemma AccessorsReturnConstructorArguments<Id>(id: Id, term: Long, candidate: string, lastLogIndex: Long, lastLogTerm: Long)
    ensures var r := PollRequest(id, term, candidate, lastLogIndex, lastLogTerm);
      r.id == id && r.term == term && r.candidate == candidate
      && r.lastLogIndex == lastLogIndex && r.lastLogTerm == lastLogTerm
  {
  }

  /** The last log index and term play no part in equality, on either side. */
  lemma EqualsIgnoresLog<Id>(a: PollRequest<Id>, b: PollRequest<Id>, idEquals: (Id, Id) -> bool,
                             index1: Long, term1: Long, index2: Long, term2: Long)
    ensures Equals(a.(lastLogIndex := index1, lastLogTerm := term1),
                   Poll(b.(lastLogIndex := index2, lastLogTerm := term2)), idEquals)
            == Equals(a, Poll(b), idEquals)
  {
  }

  /** Two requests built from the same id, term and candidate are equal
      whatever their log positions, when the id equals itself. */
  lemma SameVoteDifferentLogEqual<Id>(a: PollRequest<Id>, b: PollRequest<Id>, idEquals: (Id, Id) -> bool)
    requires a.id == b.id && idEquals(a.id, a.id)
    requires SameVote(a, b)
    ensures Equals(a, Poll(b), idEquals) && Equals(b, Poll(a), idEquals)
  {
  }

  /** If the id's equality is an equivalence relation, so is request equality. */
  lemma EqualsIsEquivalence<Id(!new)>(idEquals: (Id, Id) -> bool)
    requires IsEquivalence(idEquals)
    ensures IsEquivalence(RequestEquality(idEquals))
  {
    var eq := RequestEquality(idEquals);
    forall x: PollRequest<Id> ensures eq(x, x) {
      assert idEquals(x.id, x.id);
    }
    forall x: PollRequest<Id>, y: PollRequest<Id> | eq(x, y) ensures eq(y, x) {
      assert idEquals(x.id, y.id);
    }
    forall x: PollRequest<Id>, y: PollRequest<Id>, z: PollRequest<Id> | eq(x, y) && eq(y, z)
      ensures eq(x, z)
    {
      assert idEquals(z.id, y.id) && idEquals(y.id, x.id);
    }
  }

  /** One `h = 37 * h + v` step on a wrapped value, unwrapped. */
  lemma HashStep(x: int, v: Int32)
    ensures Add32(Mul32(37, Wrap32(x)), v) == Wrap32(37 * x + v)
  {
    Wrap32Absorbs(37 * Wrap32(x), 1, v);
    Wrap32Absorbs(x, 37, v);
  }

  /** Equal requests have equal hash codes, provided the id's hash agrees with
      the id's equality. */
  lemma EqualRequestsHashAlike<Id(!new)>(a: PollRequest<Id>, b: PollRequest<Id>,
                                        idEquals: (Id, Id) -> bool, idHash: Id -> Int32,
                                        stringHash: string -> Int32)
    requires HashAgrees(idEquals, idHash)
    requires Equals(a, Poll(b), idEquals)
    ensures HashCode(a, idHash, stringHash) == HashCode(b, idHash, stringHash)
  {
    assert idHash(b.id) == idHash(a.id);
  }
}

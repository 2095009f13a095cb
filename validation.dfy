/** The computations inside `validate_collection`: the reads that can
    raise, the early return on an empty collection, the grouping of
    documents by embedding length with its "all 384" verdict, and the count
    of replica-set members whose state is PRIMARY. */
module Validation {
  import opened Wrappers
  import opened Hashing
  import opened Records
  import opened Store

  /** The dimension of the all-MiniLM-L6-v2 embeddings the verdict expects. */
  const ExpectedDimension: nat := 384

  const PrimaryState: string := "PRIMARY"

  /** The embedding lengths present in the collection (the `_id`s of the
      `$group` stage). */
  function Sizes(c: Collection): set<nat> {
    set k | k in c :: |c[k].embedding|
  }

  /** The documents whose embedding has length `n`. */
  function WithSize(c: Collection, n: nat): set<Digest> {
    set k | k in c && |c[k].embedding| == n
  }

  /** `$project: {embedding_size: {$size: "$embedding"}}` then
      `$group: {_id: "$embedding_size", count: {$sum: 1}}`, as a map from
      length to count. Every group is non-empty. */
  function SizeGroups(c: Collection): (g: map<nat, nat>)
    ensures g.Keys == Sizes(c)
    ensures forall n :: n in g ==> g[n] == |WithSize(c, n)| && g[n] > 0
  {
    var g := map n | n in Sizes(c) :: |WithSize(c, n)|;
    forall n | n in g ensures g[n] > 0 {
      var k :| k in c && |c[k].embedding| == n;
      assert k in WithSize(c, n);
    }
    g
  }

  /** `len(sizes) == 1 and sizes[0]['_id'] == 384`. */
  predicate Consistent(groups: map<nat, nat>) {
    |groups| == 1 && ExpectedDimension in groups
  }

  lemma SingletonSet(s: set<nat>, x: nat)
    requires |s| == 1 && x in s
    ensures s == {x}
  {
    var others := s - {x};
    assert s == others + {x};
    assert others == {};
  }

  /** The verdict is given exactly when the collection is non-empty and
      every embedding has 384 components. */
  lemma ConsistentIff(c: Collection)
    ensures Consistent(SizeGroups(c))
            <==> |c| > 0 && forall k :: k in c ==> |c[k].embedding| == ExpectedDimension
  {
    var g := SizeGroups(c);
    if Consistent(g) {
      assert |g.Keys| == |g|;
      SingletonSet(g.Keys, ExpectedDimension);
      forall k | k in c ensures |c[k].embedding| == ExpectedDimension {
        assert |c[k].embedding| in Sizes(c);
      }
      var k :| k in c && |c[k].embedding| == ExpectedDimension;
    }
    if |c| > 0 && forall k :: k in c ==> |c[k].embedding| == ExpectedDimension {
      var k :| k in c;
      assert ExpectedDimension in Sizes(c);
      assert Sizes(c) == {ExpectedDimension};
      assert |g| == |g.Keys|;
    }
  }

  ghost function Pick(s: set<nat>): nat
    requires s != {}
  {
    var n :| n in s; n
  }

  /** The sum of the counts of the groups in `keys`. */
  ghost function SumCounts(g: map<nat, nat>, keys: set<nat>): nat
    requires keys <= g.Keys
    decreases keys
  {
    if keys == {} then 0 else var n := Pick(keys); g[n] + SumCounts(g, keys - {n})
  }

  /** The documents whose embedding length is one of `keys`. */
  function WithSizeIn(c: Collection, keys: set<nat>): set<Digest> {
    set k | k in c && |c[k].embedding| in keys
  }

  lemma {:induction false} SumCountsCovers(c: Collection, g: map<nat, nat>, keys: set<nat>)
    requires keys <= g.Keys
    requires forall n :: n in keys ==> g[n] == |WithSize(c, n)|
    ensures SumCounts(g, keys) == |WithSizeIn(c, keys)|
    decreases keys
  {
    if keys == {} {
      assert WithSizeIn(c, keys) == {};
    } else {
      var n := Pick(keys);
      SumCountsCovers(c, g, keys - {n});
      var a, b := WithSize(c, n), WithSizeIn(c, keys - {n});
      assert |WithSizeIn(c, keys)| == |a| + |b| by {
        assert WithSizeIn(c, keys) == a + b;
        assert a * b == {};
      }
    }
  }

  /** The group counts add up to the number of documents: every document
      falls in exactly one group. */
  lemma GroupCountsSumToTotal(c: Collection)
    ensures SumCounts(SizeGroups(c), SizeGroups(c).Keys) == |c|
  {
    var g := SizeGroups(c);
    SumCountsCovers(c, g, g.Keys);
    assert WithSizeIn(c, g.Keys) == c.Keys;
  }

  /** A member of `replSetGetStatus()['members']`. */
  datatype Member = Member(name: string, stateStr: string)

  predicate IsPrimary(m: Member) {
    m.stateStr == PrimaryState
  }

  /** `sum(1 for m in members if m['stateStr'] == 'PRIMARY')`. */
  function PrimaryCount(ms: seq<Member>): (n: nat)
    ensures n <= |ms|
    ensures n == 0 <==> forall i :: 0 <= i < |ms| ==> !IsPrimary(ms[i])
  {
    if ms == [] then 0
    else (if IsPrimary(ms[0]) then 1 else 0) + PrimaryCount(ms[1..])
  }

  /** The member at `i` is the only primary. */
  predicate OnlyPrimaryAt(ms: seq<Member>, i: nat)
    requires i < |ms|
  {
    IsPrimary(ms[i]) && forall j :: 0 <= j < |ms| && j != i ==> !IsPrimary(ms[j])
  }

  /** The replica-set check passes exactly when one member, and no other,
      is PRIMARY. */
  lemma {:induction false} SinglePrimaryIff(ms: seq<Member>)
    ensures PrimaryCount(ms) == 1 <==> exists i :: 0 <= i < |ms| && OnlyPrimaryAt(ms, i)
  {
    if ms != [] {
      var rest := ms[1..];
      SinglePrimaryIff(rest);
      if IsPrimary(ms[0]) {
        if PrimaryCount(ms) == 1 {
          assert forall j :: 1 <= j < |ms| ==> ms[j] == rest[j - 1];
          assert OnlyPrimaryAt(ms, 0);
        }
        if exists i :: 0 <= i < |ms| && OnlyPrimaryAt(ms, i) {
          var i :| 0 <= i < |ms| && OnlyPrimaryAt(ms, i);
          assert i == 0;
          assert forall j :: 0 <= j < |rest| ==> rest[j] == ms[j + 1];
        }
      } else {
        if PrimaryCount(ms) == 1 {
          var i :| 0 <= i < |rest| && OnlyPrimaryAt(rest, i);
          assert forall j :: 1 <= j < |ms| ==> ms[j] == rest[j - 1];
          assert OnlyPrimaryAt(ms, i + 1);
        }
        if exists i :: 0 <= i < |ms| && OnlyPrimaryAt(ms, i) {
          var i :| 0 <= i < |ms| && OnlyPrimaryAt(ms, i);
          assert i > 0;
          assert forall j :: 0 <= j < |rest| ==> rest[j] == ms[j + 1];
          assert OnlyPrimaryAt(rest, i - 1);
        }
      }
    }
  }

  /** The outcome of the replica-set check: one primary, some other
      number, or `replSetGetStatus` raised (logged, not fatal). */
  datatype PrimaryCheck = PrimaryOk | WrongPrimaryCount(count: nat) | StatusUnavailable

  function CheckPrimary(status: Option<seq<Member>>): (r: PrimaryCheck)
    ensures r == PrimaryOk <==> status.Some? && PrimaryCount(status.value) == 1
    ensures r == PrimaryOk
            <==> status.Some? && exists i :: 0 <= i < |status.value| && OnlyPrimaryAt(status.value, i)
    ensures r == StatusUnavailable <==> status.None?
    ensures r.WrongPrimaryCount? ==> r.count == PrimaryCount(status.value) && r.count != 1
  {
    match status
    case None => StatusUnavailable
    case Some(ms) =>
      SinglePrimaryIff(ms);
      var n := PrimaryCount(ms);
      if n == 1 then PrimaryOk else WrongPrimaryCount(n)
  }

  /** What the validation reports about a non-empty collection. */
  datatype Report = Report(total: nat, groups: map<nat, nat>, consistent: bool, primary: PrimaryCheck)

  /** How each of `validate_collection`'s unguarded reads ends, in program
      order: the total `count_documents({})`, the sample `find_one()`, the
      embedding-size `aggregate`, and the two missing-field
      `count_documents`. */
  datatype ValidationReads = ValidationReads(total: StoreRead, sample: StoreRead, sizes: StoreRead,
                                             missingText: StoreRead, missingEmbedding: StoreRead)

  /** The reads made after the collection is found to be non-empty. */
  function LaterReads(outcomes: ValidationReads): seq<StoreRead> {
    [outcomes.sample, outcomes.sizes, outcomes.missingText, outcomes.missingEmbedding]
  }

  /** The exception of the first read in `rs` that raises, if any. */
  function FirstRaised(rs: seq<StoreRead>): (r: Option<string>)
    ensures r.None? <==> forall i :: 0 <= i < |rs| ==> rs[i].Answered?
    ensures r.Some? ==> exists i :: 0 <= i < |rs| && rs[i] == ReadRaised(r.value)
                                    && forall j :: 0 <= j < i ==> rs[j].Answered?
  {
    if rs == [] then None
    else match rs[0]
      case ReadRaised(reason) => Some(reason)
      case Answered =>
        var r := FirstRaised(rs[1..]);
        assert forall i :: 1 <= i < |rs| ==> rs[i] == rs[1..][i - 1];
        r
  }

  /** `validate_collection`'s outcome: its return value and report, or the
      exception of a read, which leaves the method and `main`'s step. */
  datatype ValidationResult = Returned(passed: bool, report: Option<Report>) | ValidationRaised(reason: string)

  /** `validate_collection`: the first read that raises ends it; otherwise
      False with no report on an empty collection, and True on any other,
      whatever the dimension and replica-set findings, which are only
      reported. Only `replSetGetStatus` is guarded (`status` is None when
      it raised). */
  function ValidateCollection(c: Collection, outcomes: ValidationReads, status: Option<seq<Member>>)
    : (r: ValidationResult)
    ensures r.ValidationRaised?
            <==> outcomes.total.ReadRaised? || (|c| > 0 && FirstRaised(LaterReads(outcomes)).Some?)
    ensures r.ValidationRaised? ==>
              r.reason == if outcomes.total.ReadRaised? then outcomes.total.reason
                          else FirstRaised(LaterReads(outcomes)).value
    ensures r.Returned? ==> (r.passed <==> |c| > 0)
    ensures r.Returned? ==> (r.report.None? <==> |c| == 0)
    ensures r.Returned? && r.report.Some? ==>
              r.report.value.total == |c| && r.report.value.groups == SizeGroups(c)
    ensures r.Returned? && r.report.Some? ==>
              (r.report.value.consistent <==> forall k :: k in c ==> |c[k].embedding| == ExpectedDimension)
    ensures r.Returned? && r.report.Some? ==>
              (r.report.value.primary == PrimaryOk
               <==> status.Some? && exists i :: 0 <= i < |status.value| && OnlyPrimaryAt(status.value, i))
  {
    match outcomes.total
    case ReadRaised(reason) => ValidationRaised(reason)
    case Answered =>
      var total := |c|;
      if total == 0 then Returned(false, None)
      else match FirstRaised(LaterReads(outcomes))
        case Some(reason) => ValidationRaised(reason)
        case None =>
          var groups := SizeGroups(c);
          ConsistentIff(c);
          Returned(true, Some(Report(total, groups, Consistent(groups), CheckPrimary(status))))
  }
}

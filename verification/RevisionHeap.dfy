/**
 The revisions of one session on the heap. Each owns its payload leases; forks retain what they
 keep and adopt what is new; superseded owners are closed, and those whose close fails are retired
 and tried again. Whatever the sequence of edits, saves, exports and closings, a revision that is
 not closed reads the bytes it was made with, and a buffer is wiped exactly when its last owner is.
 */
module RevisionHeap {
  import opened Basics
  import opened Leases

  /** A field of a new revision keeps a field of the old one or takes one of the adopted buffers. */
  datatype Planned = Kept(field: nat) | Adopted(item: nat)

  predicate WellFormed(plan: seq<Planned>, fields: nat, items: nat) {
    forall k :: 0 <= k < |plan| ==> match plan[k] case Kept(f) => f < fields case Adopted(n) => n < items
  }

  /** What a planned field is made from: an owner of the old revision or an adopted buffer. */
  datatype Origin = Owner(payload: InlinePayload) | Item(item: nat)

  function OriginOf(source: seq<InlinePayload>, planned: Planned): Origin
    requires planned.Kept? ==> planned.field < |source|
  {
    match planned
    case Kept(f) => Owner(source[f])
    case Adopted(n) => Item(n)
  }

  /** The bytes a plan asks for. */
  ghost function PlannedContent(content: seq<Bytes>, plan: seq<Planned>, adopted: seq<Bytes>): seq<Bytes>
    requires WellFormed(plan, |content|, |adopted|)
  {
    seq(|plan|, k requires 0 <= k < |plan| => match plan[k] case Kept(f) => content[f] case Adopted(n) => adopted[n])
  }

  predicate NoRepeats(items: seq<InlinePayload>) {
    forall i, j :: 0 <= i < j < |items| ==> items[i] != items[j]
  }

  /** The distinct payloads of a document, in the order of their first field. */
  function Distinct(fields: seq<InlinePayload>): (r: seq<InlinePayload>)
    ensures NoRepeats(r)
    ensures (forall p :: p in r ==> p in fields) && (forall p :: p in fields ==> p in r)
  {
    if fields == [] then []
    else
      var n := |fields| - 1;
      var earlier := Distinct(fields[..n]);
      assert fields == fields[..n] + [fields[n]];
      if fields[n] in earlier then earlier else earlier + [fields[n]]
  }

  class Revision {
    const fields: seq<InlinePayload>
    var pending: seq<InlinePayload>
    var closing: bool
    var closed: bool

    constructor (fields: seq<InlinePayload>)
      ensures this.fields == fields && pending == Distinct(fields) && !closing && !closed
    {
      this.fields, pending := fields, Distinct(fields);
      closing, closed := false, false;
    }

    predicate Open()
      reads this
    {
      !closing && !closed
    }
  }

  /** The bytes a revision was made with, field by field. */
  ghost function Content(r: Revision): seq<Bytes> {
    Originals(r.fields)
  }

  ghost function Originals(fields: seq<InlinePayload>): seq<Bytes> {
    seq(|fields|, k requires 0 <= k < |fields| => fields[k].storage.original)
  }

  /** The owners still to be closed are exactly the open ones, and an open revision has closed none. */
  ghost predicate Fit(all: set<InlinePayload>, r: Revision)
    reads r, r.fields
  {
    && (forall p :: p in r.fields ==> p in all)
    && NoRepeats(r.pending)
    && (forall p :: p in r.pending ==> p in r.fields && !p.closed)
    && (forall p :: p in r.fields && !p.closed ==> p in r.pending)
    && (r.closed ==> r.pending == [])
    && (r.Open() ==> forall p :: p in r.fields ==> !p.closed)
  }

  predicate Apart(r: Revision, s: Revision) {
    forall p :: p in r.fields ==> p !in s.fields
  }

  /** Revisions own their leases alone, and every open lease belongs to one. */
  ghost predicate Owned(all: set<InlinePayload>, made: set<Revision>)
    reads all
  {
    && (forall r, s :: r in made && s in made && r != s ==> Apart(r, s))
    && (forall p :: p in all && !p.closed ==> exists r :: r in made && p in r.fields)
  }

  lemma HalfClosedFits(all: set<InlinePayload>, r: Revision)
    requires (forall p :: p in r.fields ==> p in all) && NoRepeats(r.pending)
    requires forall p :: p in r.pending ==> p in r.fields && !p.closed
    requires forall p :: p in r.fields && !p.closed ==> p in r.pending
    requires !r.Open() && (r.closed ==> r.pending == [])
    ensures Fit(all, r)
  {
  }

  /** Each planned field gets the lease of its origin; fields with one origin share it. */
  ghost predicate Assembled(
    source: seq<InlinePayload>, plan: seq<Planned>, adopted: seq<Bytes>, fields: seq<InlinePayload>)
    requires WellFormed(plan, |source|, |adopted|)
  {
    && |fields| <= |plan|
    && (forall k :: 0 <= k < |fields| ==> Serves(source, plan[k], adopted, fields[k]))
    && (forall k, l :: 0 <= k < |fields| && 0 <= l < |fields| ==>
          (fields[k] == fields[l] <==> OriginOf(source, plan[k]) == OriginOf(source, plan[l])))
  }

  ghost predicate Serves(source: seq<InlinePayload>, planned: Planned, adopted: seq<Bytes>, lease: InlinePayload)
    requires match planned case Kept(f) => f < |source| case Adopted(n) => n < |adopted|
  {
    match planned
    case Kept(f) => lease.storage == source[f].storage
    case Adopted(n) => lease.storage.original == adopted[n]
  }

  /** One lease for each origin met so far. */
  ghost predicate Known(
    source: seq<InlinePayload>, plan: seq<Planned>, adopted: seq<Bytes>, fields: seq<InlinePayload>,
    known: map<Origin, InlinePayload>)
    requires WellFormed(plan, |source|, |adopted|) && |fields| <= |plan|
  {
    && (forall k :: 0 <= k < |fields| ==>
          OriginOf(source, plan[k]) in known && known[OriginOf(source, plan[k])] == fields[k])
    && (forall a, b :: a in known && b in known && known[a] == known[b] ==> a == b)
    && (forall o :: o in known ==> known[o] in fields)
  }

  lemma OneMoreField(
    source: seq<InlinePayload>, plan: seq<Planned>, adopted: seq<Bytes>, fields: seq<InlinePayload>,
    known: map<Origin, InlinePayload>, lease: InlinePayload)
    requires WellFormed(plan, |source|, |adopted|) && |fields| < |plan|
    requires Assembled(source, plan, adopted, fields) && Known(source, plan, adopted, fields, known)
    requires var origin := OriginOf(source, plan[|fields|]);
             if origin in known then known[origin] == lease
             else lease !in fields && Serves(source, plan[|fields|], adopted, lease)
    ensures OriginOf(source, plan[|fields|]) in known ==> lease in fields
    ensures Assembled(source, plan, adopted, fields + [lease])
    ensures Known(source, plan, adopted, fields + [lease], known[OriginOf(source, plan[|fields|]) := lease])
  {
    var origin, after := OriginOf(source, plan[|fields|]), fields + [lease];
    if origin in known {
      var k :| 0 <= k < |fields| && fields[k] == lease;
      assert Serves(source, plan[k], adopted, fields[k]) && OriginOf(source, plan[k]) == origin;
    }
  }

  lemma AssembledContent(source: seq<InlinePayload>, plan: seq<Planned>, adopted: seq<Bytes>, r: Revision)
    requires WellFormed(plan, |source|, |adopted|) && |r.fields| == |plan|
    requires Assembled(source, plan, adopted, r.fields)
    ensures Content(r) == PlannedContent(Originals(source), plan, adopted)
  {
    forall k | 0 <= k < |plan|
      ensures Content(r)[k] == PlannedContent(Originals(source), plan, adopted)[k]
    {
      assert Serves(source, plan[k], adopted, r.fields[k]);
    }
  }

  lemma NothingYet(source: seq<InlinePayload>, plan: seq<Planned>, adopted: seq<Bytes>)
    requires WellFormed(plan, |source|, |adopted|)
    ensures Assembled(source, plan, adopted, []) && Known(source, plan, adopted, [], map[])
  {
  }

  class LeaseHeap {
    /** Every lease and every revision ever made, and what they consist of. */
    ghost var all: set<InlinePayload>
    ghost var made: set<Revision>
    ghost var repr: set<object>

    constructor ()
      ensures Sound() && all == {} && made == {} && repr == {}
    {
      all, made, repr := {}, {}, {};
    }

    ghost predicate Footprint()
      reads this
    {
      && (forall p :: p in all ==> p in repr && p.storage in repr && p.storage.data in repr)
      && (forall r :: r in made ==> r in repr && forall p :: p in r.fields ==> p in all)
      && this !in repr
    }

    ghost predicate Sound()
      reads this, repr
    {
      Footprint() && Accounted(all) && (forall r :: r in made ==> Fit(all, r)) && Owned(all, made)
    }

    /** Everything about a revision that can change stayed as it was. */
    twostate predicate Untouched(r: Revision)
      reads r
    {
      r.closed == old(r.closed) && r.closing == old(r.closing)
    }

    /**
     Close one revision. An owner whose position is in `stuck` fails to close; the revision then
     stays half closed with the failed owners pending, and can be closed again.
     */
    method CloseDocument(r: Revision, stuck: set<nat>)
      requires Sound() && r in made
      modifies repr
      ensures Sound() && all == old(all) && made == old(made) && repr == old(repr)
      ensures !r.Open() && (old(r.closed) ==> r.closed) && (stuck == {} ==> r.closed)
      ensures forall s :: s in made && s != r ==> Untouched(s)
    {
      hide Accounted, OpenLeases, Fit, NoRepeats;
      if r.closed {
        return;
      }
      assert forall s :: s in made && s != r ==> Apart(s, r);
      var failed := CloseOwners(r, stuck);
      assert forall s :: s in made && s != r ==> Fit(all, s);
      r.pending := failed;
      r.closed := |failed| == 0;
      r.closing := !r.closed;
      HalfClosedFits(all, r);
      assert forall s :: s in made && s != r ==> Fit(all, s);
    }

    method CloseOwners(r: Revision, stuck: set<nat>) returns (failed: seq<InlinePayload>)
      requires Footprint() && Accounted(all) && r in made && Fit(all, r)
      modifies set p | p in r.fields, set p | p in r.fields :: p.storage, set p | p in r.fields :: p.storage.data
      ensures Accounted(all) && NoRepeats(failed) && (stuck == {} ==> failed == [])
      ensures forall p :: p in failed ==> p in r.fields && !p.closed
      ensures forall p :: p in r.fields && !p.closed ==> p in failed
      ensures forall p :: p in r.fields && old(p.closed) ==> p.closed
    {
      hide Accounted, OpenLeases;
      failed := [];
      var i := 0;
      while i < |r.pending|
        invariant 0 <= i <= |r.pending| && r.pending == old(r.pending) && Accounted(all)
        invariant forall p :: p in r.fields && old(p.closed) ==> p.closed
        invariant forall k :: i <= k < |r.pending| ==> !r.pending[k].closed
        invariant forall k :: 0 <= k < i ==> r.pending[k].closed || r.pending[k] in failed
        invariant forall p :: p in failed ==> p in r.pending[..i] && !p.closed
        invariant NoRepeats(failed) && (stuck == {} ==> failed == [])
      {
        var p := r.pending[i];
        if i in stuck {
          failed := failed + [p];
        } else {
          Close(all, p);
        }
        i := i + 1;
      }
    }

    // -------------------------------------------------------------- new revisions

    /** The leases outside any revision are new, and nothing about the old ones changed. */
    twostate predicate Extended()
      reads this, repr
    {
      && Footprint() && Accounted(all)
      && old(all) <= all && old(repr) <= repr && fresh(repr - old(repr)) && fresh(all - old(all))
      && (forall p :: p in old(all) ==> p.closed == old(p.closed))
      && made == old(made)
      && (forall s :: s in made ==>
            s.pending == old(s.pending) && s.closed == old(s.closed) && s.closing == old(s.closing))
    }

    /** New leases become a revision of their own. */
    method Enlist(fields: seq<InlinePayload>) returns (r: Revision)
      requires Footprint() && Accounted(all) && forall s :: s in made ==> Fit(all, s)
      requires forall p :: p in fields ==> p in all && !p.closed && forall s :: s in made ==> p !in s.fields
      requires forall r, s :: r in made && s in made && r != s ==> Apart(r, s)
      requires forall p :: p in all && !p.closed && p !in fields ==> exists s :: s in made && p in s.fields
      modifies this`made, this`repr
      ensures Sound() && r.fields == fields && r.Open() && fresh(r) && made == old(made) + {r}
      ensures repr == old(repr) + {r}
    {
      hide Accounted, OpenLeases;
      r := new Revision(fields);
      made := made + {r};
      repr := repr + {r};
    }

    /** Leases no revision took over are closed again. */
    method Undo(fields: seq<InlinePayload>)
      requires Footprint() && Accounted(all) && forall s :: s in made ==> Fit(all, s)
      requires forall p :: p in fields ==> p in all && forall s :: s in made ==> p !in s.fields
      requires forall r, s :: r in made && s in made && r != s ==> Apart(r, s)
      requires forall p :: p in all && !p.closed && p !in fields ==> exists s :: s in made && p in s.fields
      modifies repr
      ensures Sound() && forall s :: s in made ==> Untouched(s)
    {
      hide Accounted, OpenLeases, NoRepeats, Fit;
      assert forall i :: 0 <= i < |fields| ==> fields[i] in all;
      assert forall s :: s in made ==> s in repr;
      Leases.CloseRevision(all, fields);
      assert forall s :: s in made ==> Fit(all, s);
    }

    /** A lease for one origin: retained from an open owner, or adopted. */
    method TakeLease(origin: Origin, adopted: seq<Bytes>) returns (lease: InlinePayload)
      requires Footprint() && Accounted(all)
      requires match origin case Owner(p) => p in all && !p.closed case Item(n) => n < |adopted|
      modifies repr, this`all, this`repr
      ensures Extended() && all == old(all) + {lease} && fresh(lease) && !lease.closed
      ensures match origin
              case Owner(p) => lease.storage == p.storage
              case Item(n) => lease.storage.original == adopted[n]
    {
      hide Accounted, OpenLeases;
      if origin.Owner? {
        lease := Leases.Retain(all, origin.payload);
      } else {
        lease := Leases.Adopt(all, adopted[origin.item]);
      }
      all := all + {lease};
      repr := repr + {lease, lease.storage, lease.storage.data};
    }

    /** The lease of one planned field: the one its origin has, or a new one; a closed owner gives none. */
    method ForkField(
      source: seq<InlinePayload>, planned: Planned, adopted: seq<Bytes>, known: map<Origin, InlinePayload>)
      returns (lease: Option<InlinePayload>)
      requires Footprint() && Accounted(all) && (forall p :: p in source ==> p in all)
      requires match planned case Kept(f) => f < |source| case Adopted(n) => n < |adopted|
      modifies repr, this`all, this`repr
      ensures Extended()
      ensures var origin := OriginOf(source, planned);
              if origin in known then lease == Some(known[origin]) && all == old(all)
              else if origin.Owner? && origin.payload.closed then lease.None? && all == old(all)
              else lease.Some? && fresh(lease.value) && !lease.value.closed && all == old(all) + {lease.value}
                   && Serves(source, planned, adopted, lease.value)
    {
      hide Accounted, OpenLeases;
      var origin := OriginOf(source, planned);
      if origin in known {
        return Some(known[origin]);
      }
      if origin.Owner? && origin.payload.closed {
        return None;
      }
      var taken := TakeLease(origin, adopted);
      return Some(taken);
    }

    /** Retain each kept owner once, adopt each buffer once; a kept owner that is closed stops the fork. */
    method ForkFields(
      source: seq<InlinePayload>, plan: seq<Planned>, adopted: seq<Bytes>)
      returns (fields: seq<InlinePayload>)
      requires Footprint() && Accounted(all) && (forall p :: p in source ==> p in all)
      requires WellFormed(plan, |source|, |adopted|)
      modifies repr, this`all, this`repr
      ensures |fields| <= |plan| && Extended() && Assembled(source, plan, adopted, fields)
      ensures forall p :: p in all - old(all) ==> p in fields
      ensures forall p :: p in fields ==> p in all - old(all) && !p.closed
      ensures |fields| < |plan| ==> plan[|fields|].Kept? && source[plan[|fields|].field].closed
    {
      hide Accounted, OpenLeases, Assembled, Known, Serves, Fit, Apart, Footprint, Untouched;
      fields := [];
      NothingYet(source, plan, adopted);
      var known: map<Origin, InlinePayload> := map[];
      while |fields| < |plan|
        invariant |fields| <= |plan| && Extended() && Assembled(source, plan, adopted, fields)
        invariant forall p :: p in all - old(all) ==> p in fields
        invariant forall p :: p in fields ==> p in all - old(all) && !p.closed
        invariant Known(source, plan, adopted, fields, known)
      {
        var lease := ForkField(source, plan[|fields|], adopted, known);
        if lease.None? {
          return;
        }
        OneMoreField(source, plan, adopted, fields, known, lease.value);
        fields, known := fields + [lease.value], known[OriginOf(source, plan[|fields|]) := lease.value];
      }
    }

    /** Fork a revision by a plan. Unless an owner it keeps is closed, the fork holds what the plan asks for. */
    method Fork(source: Revision, plan: seq<Planned>, adopted: seq<Bytes>) returns (fork: Option<Revision>)
      requires Sound() && source in made && WellFormed(plan, |source.fields|, |adopted|)
      modifies repr, this`all, this`made, this`repr
      ensures Sound() && fresh(repr - old(repr)) && old(repr) <= repr && old(all) <= all
      ensures forall s :: s in old(made) ==> Untouched(s)
      ensures made == old(made) + (if fork.Some? then {fork.value} else {})
      ensures source.Open() ==> fork.Some?
      ensures fork.Some? ==>
                && fresh(fork.value) && fork.value.Open() && Assembled(source.fields, plan, adopted, fork.value.fields)
                && Content(fork.value) == PlannedContent(Content(source), plan, adopted)
    {
      hide Accounted, OpenLeases, Serves;
      var fields := ForkFields(source.fields, plan, adopted);
      if |fields| < |plan| {
        Undo(fields);
        return None;
      }
      var forked := Enlist(fields);
      AssembledContent(source.fields, plan, adopted, forked);
      return Some(forked);
    }

    /** A document read from a file. */
    method Opened(plan: seq<Planned>, adopted: seq<Bytes>) returns (r: Revision)
      requires Sound() && WellFormed(plan, 0, |adopted|)
      modifies repr, this`all, this`made, this`repr
      ensures Sound() && fresh(repr - old(repr)) && old(repr) <= repr && old(all) <= all
      ensures forall s :: s in old(made) ==> Untouched(s)
      ensures made == old(made) + {r} && fresh(r) && r.Open()
      ensures Content(r) == PlannedContent([], plan, adopted) && Assembled([], plan, adopted, r.fields)
    {
      hide Accounted, OpenLeases, Serves;
      var fields := ForkFields([], plan, adopted);
      r := Enlist(fields);
      AssembledContent([], plan, adopted, r);
    }

    /** An independent copy of an open revision: a lease for every distinct owner. */
    method RetainDocument(source: Revision) returns (copy: Revision)
      requires Sound() && source in made && source.Open()
      modifies repr, this`all, this`made, this`repr
      ensures Sound() && fresh(repr - old(repr)) && old(repr) <= repr && old(all) <= all
      ensures forall s :: s in old(made) ==> Untouched(s)
      ensures made == old(made) + {copy} && fresh(copy) && copy.Open() && Content(copy) == Content(source)
      ensures |copy.fields| == |source.fields| && SharesAlike(source.fields, copy.fields)
    {
      hide Sound, Assembled;
      var fork := Fork(source, KeepAll(|source.fields|), []);
      copy := fork.value;
      KeepsAll(source.fields, copy.fields);
    }

    /** Close several revisions; those that will not close are returned. */
    method CloseAll(owners: seq<Revision>, stuck: seq<set<nat>>, first: nat) returns (left: seq<Revision>)
      requires Sound() && forall r :: r in owners ==> r in made
      modifies repr
      ensures Sound() && all == old(all) && made == old(made) && repr == old(repr)
      ensures forall r :: r in owners ==> r.closed || r in left
      ensures forall r :: r in left ==> r in owners
      ensures Unstuck(stuck) ==> left == []
      ensures forall s :: s in made && s !in owners ==> Untouched(s)
      ensures forall s :: s in made && old(s.closed) ==> s.closed
    {
      hide Sound;
      left := [];
      var i := 0;
      while i < |owners|
        invariant 0 <= i <= |owners|
        invariant Sound() && all == old(all) && made == old(made) && repr == old(repr)
        invariant forall k :: 0 <= k < i ==> owners[k].closed || owners[k] in left
        invariant forall r :: r in left ==> r in owners
        invariant Unstuck(stuck) ==> left == []
        invariant forall s :: s in made && s !in owners ==> Untouched(s)
        invariant forall s :: s in made && old(s.closed) ==> s.closed
      {
        assert forall k :: 0 <= k < i ==> owners[k] in made;
        assert Unstuck(stuck) ==> At(stuck, first + i) == {};
        CloseDocument(owners[i], At(stuck, first + i));
        if !owners[i].closed {
          left := left + [owners[i]];
        }
        i := i + 1;
      }
    }

    /** Compare two open revisions byte by byte. */
    method SameBytes(a: Revision, b: Revision) returns (same: bool)
      requires Sound() && a in made && b in made && a.Open() && b.Open()
      ensures same <==> Content(a) == Content(b)
    {
      if |a.fields| != |b.fields| {
        return false;
      }
      var i := 0;
      while i < |a.fields|
        invariant 0 <= i <= |a.fields|
        invariant forall k :: 0 <= k < i ==> Content(a)[k] == Content(b)[k]
      {
        WipedExactly(all, a.fields[i]);
        WipedExactly(all, b.fields[i]);
        if a.fields[i].storage.data[..] != b.fields[i].storage.data[..] {
          assert Content(a)[i] != Content(b)[i];
          return false;
        }
        i := i + 1;
      }
      assert Content(a) == Content(b);
      same := true;
    }

    /** A revision that is not closed reads what it was made with. */
    lemma OpenReads(r: Revision, k: nat)
      requires Sound() && r in made && r.Open() && k < |r.fields|
      ensures Readable(r.fields[k]) == Content(r)[k]
    {
      WipedExactly(all, r.fields[k]);
    }

    /** A buffer is wiped when no owner is open, and until then holds what it was adopted with. */
    lemma WipedWithLastOwner(p: InlinePayload)
      requires Sound() && p in all
      ensures if OpenLeases(all, p.storage) == {} then Wiped(p.storage) else Readable(p) == p.storage.original
    {
      WipedExactly(all, p);
    }
  }

  function KeepAll(n: nat): seq<Planned> {
    seq(n, k requires 0 <= k < n => Kept(k))
  }

  /** Fields that shared an owner share one again. */
  ghost predicate SharesAlike(before: seq<InlinePayload>, after: seq<InlinePayload>)
    requires |before| == |after|
  {
    forall k, l :: 0 <= k < |before| && 0 <= l < |before| ==> (after[k] == after[l] <==> before[k] == before[l])
  }

  lemma KeepsAll(source: seq<InlinePayload>, fields: seq<InlinePayload>)
    requires WellFormed(KeepAll(|source|), |source|, 0)
    requires Assembled(source, KeepAll(|source|), [], fields) && |fields| == |source|
    ensures PlannedContent(Originals(source), KeepAll(|source|), []) == Originals(source)
    ensures SharesAlike(source, fields)
  {
  }

  // ---------------------------------------------------------------- the session's own revisions

  /** Which owners fail in the n-th close of a request. */
  function At(stuck: seq<set<nat>>, n: nat): set<nat> {
    if n < |stuck| then stuck[n] else {}
  }

  predicate Unstuck(stuck: seq<set<nat>>) {
    forall n :: 0 <= n < |stuck| ==> stuck[n] == {}
  }

  lemma UnstuckAt(stuck: seq<set<nat>>, n: nat)
    requires Unstuck(stuck)
    ensures At(stuck, n) == {}
  {
  }

  class SessionRevisions {
    var document: Revision
    var original: Revision
    var saving: Option<Revision>
    var retired: seq<Revision>
    var exports: seq<Revision>
    var dirty: bool
    var locked: bool

    const heap: LeaseHeap

    /** Forks given up by an edit that failed, and whether a close on the way of an edit or an abort has failed. */
    ghost var dropped: set<Revision>
    ghost var torn: bool

    /** Where a revision that is not closed is still held. */
    ghost predicate Held(r: Revision)
      reads this
    {
      || (!locked && (r == document || r == original || saving == Some(r)))
      || r in retired || r in exports || r in dropped
    }

    /** The heap is in order and this session is not a part of it. */
    ghost predicate Owning()
      reads this, heap, heap.repr
    {
      heap.Sound() && this !in heap.repr
    }

    ghost predicate Placed()
      reads this, heap
    {
      && document in heap.made && original in heap.made && (saving.Some? ==> saving.value in heap.made)
      && dropped <= heap.made
      && (forall r :: r in retired ==> r in heap.made) && (forall r :: r in exports ==> r in heap.made)
    }

    /** What others were given is nothing the session will close, and a frozen revision is not the live one. */
    ghost predicate Separate()
      reads this
    {
      && (forall r :: r in exports ==> r != document && r != original && saving != Some(r) && r !in retired)
      && (forall i, j :: 0 <= i < j < |exports| ==> exports[i] != exports[j])
      && saving != Some(document) && saving != Some(original) && (locked ==> saving.None?)
    }

    /** Every close so far has succeeded. */
    ghost predicate Tidy()
      reads this
    {
      !torn && dropped == {} && retired == []
    }

    ghost predicate Valid()
      reads this, heap, heap.repr
    {
      && Owning() && Placed() && Separate()
      && (forall r :: r in heap.made ==> r.closed || Held(r))
      && (!locked && !torn ==> document.Open() && (saving.Some? ==> saving.value.Open()))
    }

    /** Revisions and leases are only ever added. */
    twostate predicate Carried()
      reads this, heap
    {
      && old(heap.made) <= heap.made && old(heap.all) <= heap.all && old(heap.repr) <= heap.repr
      && fresh(heap.repr - old(heap.repr)) && old(exports) <= exports
    }

    predicate Mutable(expectSaving: bool)
      reads this
    {
      !locked && saving.Some? == expectSaving
    }

    predicate EditReady(plan: seq<Planned>, adopted: seq<Bytes>)
      reads this, document
    {
      !locked && saving.None? && document.Open() && WellFormed(plan, |document.fields|, |adopted|)
    }

    /** Open a session on a document whose fields take the given buffers, some of them perhaps the same one. */
    constructor (plan: seq<Planned>, adopted: seq<Bytes>)
      requires WellFormed(plan, 0, |adopted|)
      ensures Valid() && fresh(heap) && fresh(heap.repr) && document == original && document.Open() && saving.None?
      ensures !locked && !torn
      ensures Content(document) == PlannedContent([], plan, adopted) && Assembled([], plan, adopted, document.fields)
    {
      hide LeaseHeap.Sound, Assembled, Content, PlannedContent;
      heap := new LeaseHeap();
      document := new Revision([]);
      original := document;
      saving, retired, exports, dirty, locked, dropped, torn := None, [], [], false, false, {}, false;
      new;
      var first := heap.Opened(plan, adopted);
      document, original := first, first;
    }

    /** Fork by a plan, then close the predecessor; a predecessor that will not close undoes the edit. */
    method Edit(plan: seq<Planned>, adopted: seq<Bytes>, stuck: seq<set<nat>>) returns (done: bool)
      requires Valid()
      modifies this, heap, heap.repr
      ensures Valid() && Carried() && locked == old(locked) && saving == old(saving)
      ensures forall r :: r in old(exports) ==> heap.Untouched(r)
      ensures !done ==> document == old(document) && dirty == old(dirty)
      ensures done ==>
                && WellFormed(plan, |old(document).fields|, |adopted|) && dirty && document.Open()
                && Content(document) == PlannedContent(Content(old(document)), plan, adopted)
                && Assembled(old(document).fields, plan, adopted, document.fields)
      ensures old(EditReady(plan, adopted)) && At(stuck, 0) == {} ==> done
      ensures old(Tidy()) && Unstuck(stuck) ==> Tidy()
    {
      hide LeaseHeap.Sound, Assembled, Content, PlannedContent;
      if !Mutable(false) || !WellFormed(plan, |document.fields|, |adopted|) {
        return false;
      }
      var fork := heap.Fork(document, plan, adopted);
      if fork.None? {
        return false;
      }
      done := Succeed(fork.value, stuck);
    }

    /** A new fork takes the place of the live revision if that one can be closed. */
    method Succeed(fork: Revision, stuck: seq<set<nat>>) returns (done: bool)
      requires Owning() && Placed() && Separate() && !locked && saving.None?
      requires fork in heap.made && fork.Open() && fork != document && fork != original && fork !in exports
      requires fork !in retired
      requires forall r :: r in heap.made && r != fork ==> r.closed || Held(r)
      requires !torn ==> document.Open()
      modifies this`document, this`dirty, this`dropped, this`torn, heap.repr
      ensures Valid() && forall r :: r in exports ==> heap.Untouched(r)
      ensures heap.all == old(heap.all) && heap.made == old(heap.made) && heap.repr == old(heap.repr)
      ensures if done then document == fork && document.Open() && dirty
              else document == old(document) && dirty == old(dirty)
      ensures At(stuck, 0) == {} ==> done
      ensures old(Tidy()) && Unstuck(stuck) ==> Tidy()
    {
      hide LeaseHeap.Sound;
      var previous := document;
      heap.CloseDocument(previous, At(stuck, 0));
      if previous.closed {
        document, dirty := fork, true;
        return true;
      }
      heap.CloseDocument(fork, At(stuck, 1));
      if !fork.closed {
        dropped := dropped + {fork};
      }
      torn := true;
      return false;
    }

    /** Freeze a copy of the live revision for a save. */
    method BeginSave() returns (done: bool)
      requires Valid()
      modifies this`saving, heap, heap.repr
      ensures Valid() && Carried() && forall r :: r in old(exports) ==> heap.Untouched(r)
      ensures document == old(document) && (document in heap.made && old(document.Open()) ==> document.Open())
      ensures done ==> saving.Some? && saving.value.Open() && Content(saving.value) == Content(document)
      ensures done <==> !locked && old(saving).None? && old(document.Open())
      ensures old(Tidy()) ==> Tidy()
    {
      hide LeaseHeap.Sound, Content, SharesAlike;
      if !Mutable(false) || !document.Open() {
        return false;
      }
      var snapshot := heap.RetainDocument(document);
      saving := Some(snapshot);
      done := true;
    }

    /** Hand out an independent copy of the live revision. */
    method Export() returns (done: bool)
      requires Valid()
      modifies this`exports, heap, heap.repr
      ensures Valid() && Carried() && forall r :: r in old(exports) ==> heap.Untouched(r)
      ensures document == old(document) && (document in heap.made && old(document.Open()) ==> document.Open())
      ensures done ==>
                && |exports| == |old(exports)| + 1
                && exports[|old(exports)|].Open() && Content(exports[|old(exports)|]) == Content(document)
      ensures !done ==> exports == old(exports)
      ensures done <==> !locked && saving.None? && old(document.Open())
      ensures old(Tidy()) ==> Tidy()
    {
      hide LeaseHeap.Sound, Content, SharesAlike;
      if !Mutable(false) || !document.Open() {
        return false;
      }
      var copy := heap.RetainDocument(document);
      exports := exports + [copy];
      done := true;
    }

    /** Whoever was given a copy closes it. */
    method CloseExport(i: nat, stuck: seq<set<nat>>)
      requires Valid()
      modifies heap.repr
      ensures Valid() && Carried()
      ensures forall r :: r in exports && (i < |exports| ==> r != exports[i]) ==> heap.Untouched(r)
      ensures i < |exports| && At(stuck, 0) == {} ==> exports[i].closed
      ensures old(Tidy()) ==> Tidy()
    {
      hide LeaseHeap.Sound;
      if i < |exports| {
        heap.CloseDocument(exports[i], At(stuck, 0));
      }
    }

    /** A failed save gives its frozen copy back; one that will not close stays frozen. */
    method AbortSave(stuck: seq<set<nat>>) returns (done: bool)
      requires Valid()
      modifies this`saving, this`torn, heap.repr
      ensures Valid() && Carried() && forall r :: r in exports ==> heap.Untouched(r)
      ensures document == old(document) && document.Open() == old(document.Open())
      ensures !locked && old(saving).Some? && At(stuck, 0) == {} ==> done
      ensures done ==> !locked && old(saving).Some? && saving.None?
      ensures old(Tidy()) && Unstuck(stuck) ==> Tidy()
    {
      hide LeaseHeap.Sound;
      if !Mutable(true) {
        return false;
      }
      heap.CloseDocument(saving.value, At(stuck, 0));
      if !saving.value.closed {
        torn := true;
        return false;
      }
      saving := None;
      done := true;
    }

    /** Every revision that is not closed is held somewhere, those in `loose` aside. */
    ghost predicate AllHeld(loose: set<Revision>)
      reads this, heap, heap.repr
      requires Owning()
    {
      forall r :: r in heap.made ==> r.closed || Held(r) || r in loose
    }

    /** Close a superseded owner, or keep it for a later attempt. */
    method Retire(r: Revision, ghost loose: set<Revision>, stuck: set<nat>)
      requires Owning() && Placed() && Separate() && AllHeld(loose) && r in heap.made
      requires r != document && r != original && saving != Some(r) && r !in exports
      modifies this`retired, heap.repr
      ensures Owning() && Placed() && Separate() && AllHeld(loose - {r})
      ensures heap.all == old(heap.all) && heap.made == old(heap.made) && heap.repr == old(heap.repr)
      ensures forall s :: s in heap.made && s != r ==> heap.Untouched(s)
      ensures retired == old(retired) + (if r.closed then [] else [r]) && (stuck == {} ==> r.closed)
    {
      hide LeaseHeap.Sound;
      heap.CloseDocument(r, stuck);
      if !r.closed {
        retired := retired + [r];
      }
    }

    /**
     The published file has been read back. If it holds what the frozen copy holds it becomes the
     live revision, and the copy and both predecessors are retired; none of that can disturb it.
     */
    method FinishSave(plan: seq<Planned>, adopted: seq<Bytes>, stuck: seq<set<nat>>) returns (done: bool)
      requires Valid()
      modifies this, heap, heap.repr
      ensures Valid() && Carried() && forall r :: r in old(exports) ==> heap.Untouched(r)
      ensures exports == old(exports) && locked == old(locked)
      ensures done ==>
                && old(saving).Some? && saving.None? && !dirty && document == original && document.Open()
                && Content(document) == Content(old(saving).value)
      ensures !done ==> document == old(document) && saving == old(saving) && dirty == old(dirty)
      ensures old(!locked && saving.Some? && saving.value.Open()) && WellFormed(plan, 0, |adopted|) ==>
                (done <==> old(Content(saving.value)) == PlannedContent([], plan, adopted))
      ensures done ==> old(!locked && saving.Some? && saving.value.Open()) && WellFormed(plan, 0, |adopted|)
      ensures old(Tidy()) && Unstuck(stuck) ==> Tidy()
    {
      hide LeaseHeap.Sound, Content, PlannedContent, Assembled;
      if !Mutable(true) || !WellFormed(plan, 0, |adopted|) || !saving.value.Open() {
        return false;
      }
      var reread := heap.Opened(plan, adopted);
      var same := heap.SameBytes(saving.value, reread);
      if !same {
        Reject(reread, stuck);
        return false;
      }
      Promote(reread, stuck);
      done := true;
    }

    /** What was read back is not what was frozen. */
    method Reject(reread: Revision, stuck: seq<set<nat>>)
      requires Owning() && Placed() && Separate() && AllHeld({reread}) && !locked && saving.Some?
      requires reread in heap.made && reread != document && reread != original && reread != saving.value
      requires reread !in exports
      requires !torn ==> document.Open() && saving.value.Open()
      modifies this`dropped, heap.repr
      ensures Valid() && forall r :: r in exports ==> heap.Untouched(r)
      ensures heap.all == old(heap.all) && heap.made == old(heap.made) && heap.repr == old(heap.repr)
      ensures old(Tidy()) && Unstuck(stuck) ==> Tidy()
    {
      hide LeaseHeap.Sound;
      heap.CloseDocument(reread, At(stuck, 0));
      if !reread.closed {
        dropped := dropped + {reread};
      }
    }

    method Promote(reread: Revision, stuck: seq<set<nat>>)
      requires Owning() && Placed() && Separate() && AllHeld({reread}) && !locked && saving.Some?
      requires reread in heap.made && reread.Open() && reread != document && reread != original
      requires reread != saving.value
      requires reread !in exports && reread !in retired
      modifies this, heap.repr
      ensures Valid() && forall r :: r in exports ==> heap.Untouched(r)
      ensures heap.all == old(heap.all) && heap.made == old(heap.made) && heap.repr == old(heap.repr)
      ensures document == original == reread && reread.Open() && saving.None? && !dirty && exports == old(exports)
      ensures locked == old(locked)
      ensures old(Tidy()) && Unstuck(stuck) ==> Tidy()
    {
      hide LeaseHeap.Sound;
      var snapshot, live, first := saving.value, document, original;
      document, original, saving, dirty := reread, reread, None, false;
      RetireAll(snapshot, live, first, stuck);
    }

    /** The frozen copy and both predecessors, which may be the same. */
    method RetireAll(snapshot: Revision, live: Revision, first: Revision, stuck: seq<set<nat>>)
      requires Owning() && Placed() && Separate() && AllHeld({snapshot, live, first}) && saving.None?
      requires forall r :: r in {snapshot, live, first} ==>
                 r in heap.made && r != document && r != original && r !in exports
      requires document.Open()
      modifies this`retired, heap.repr
      ensures Owning() && Placed() && Separate() && AllHeld({}) && document.Open()
      ensures heap.all == old(heap.all) && heap.made == old(heap.made) && heap.repr == old(heap.repr)
      ensures forall r :: r in exports ==> heap.Untouched(r)
      ensures old(Tidy()) && Unstuck(stuck) ==> Tidy()
    {
      hide LeaseHeap.Sound, AllHeld;
      Retire(snapshot, {snapshot, live, first}, At(stuck, 0));
      if live != first {
        assert {snapshot, live, first} - {snapshot} <= {live, first};
        AllHeldIn({snapshot, live, first} - {snapshot}, {live, first});
        Retire(live, {live, first}, At(stuck, 1));
        AllHeldIn({live, first} - {live}, {first});
      } else {
        AllHeldIn({snapshot, live, first} - {snapshot}, {first});
      }
      Retire(first, {first}, At(stuck, 2));
      AllHeldIn({first} - {first}, {});
    }

    lemma AllHeldIn(some: set<Revision>, more: set<Revision>)
      requires Owning() && AllHeld(some) && some <= more
      ensures AllHeld(more)
    {
    }

    // -------------------------------------------------------------- ending the session

    /** Close everything the session owns; what will not close is kept for another attempt. */
    method CloseResources(stuck: seq<set<nat>>, first: nat)
      requires Valid() && !locked && saving.None?
      modifies this, heap.repr
      ensures Valid() && Carried() && locked && exports == old(exports) && forall r :: r in exports ==>
                heap.Untouched(r)
      ensures Unstuck(stuck) ==> retired == []
      ensures old(Tidy()) && Unstuck(stuck) ==> Tidy()
    {
      hide LeaseHeap.Sound;
      var owners := (if document != original then [document] else []) + [original] + retired;
      var left := heap.CloseAll(owners, stuck, first);
      retired, locked, dirty := left, true, false;
    }

    /** Lock a clean session, or try again what an earlier end left open. */
    method Lock(stuck: seq<set<nat>>) returns (done: bool)
      requires Valid()
      modifies this, heap.repr
      ensures Valid() && Carried() && exports == old(exports) && forall r :: r in exports ==> heap.Untouched(r)
      ensures done ==> locked && (Unstuck(stuck) ==> retired == [])
      ensures done <==> if old(locked) then old(retired) != [] else old(saving).None? && !old(dirty)
      ensures !done ==> locked == old(locked) && document == old(document) && document.Open() == old(document.Open())
      ensures old(Tidy()) && Unstuck(stuck) ==> Tidy()
    {
      hide LeaseHeap.Sound;
      if locked && retired != [] {
        var left := heap.CloseAll(retired, stuck, 0);
        retired := left;
        return true;
      }
      if locked || saving.Some? || dirty {
        return false;
      }
      CloseResources(stuck, 0);
      done := true;
    }

    /** Give up unsaved changes and close everything; a frozen copy that will not close stops it. */
    method Discard(stuck: seq<set<nat>>) returns (done: bool)
      requires Valid()
      modifies this, heap.repr
      ensures Valid() && Carried() && exports == old(exports) && forall r :: r in exports ==> heap.Untouched(r)
      ensures done ==> !old(locked) && locked && (Unstuck(stuck) ==> retired == [])
      ensures !old(locked) && (old(saving).None? || At(stuck, 0) == {}) ==> done
      ensures !locked ==> document == old(document) && document.Open() == old(document.Open())
      ensures old(Tidy()) && Unstuck(stuck) ==> Tidy()
    {
      hide LeaseHeap.Sound;
      if locked {
        return false;
      }
      if saving.Some? {
        var aborted := AbortSave(stuck);
        if !aborted {
          return false;
        }
      }
      CloseResources(stuck, 1);
      done := true;
    }

    /** The frozen revision is stored: retire it and close everything. */
    method FinishSuspend(stuck: seq<set<nat>>) returns (done: bool)
      requires Valid()
      modifies this, heap.repr
      ensures Valid() && Carried() && exports == old(exports) && forall r :: r in exports ==> heap.Untouched(r)
      ensures done <==> !old(locked) && old(saving).Some?
      ensures done ==> locked && (Unstuck(stuck) ==> retired == [])
      ensures !done ==> locked == old(locked) && document == old(document) && document.Open() == old(document.Open())
      ensures old(Tidy()) && Unstuck(stuck) ==> Tidy()
    {
      hide LeaseHeap.Sound;
      if !Mutable(true) {
        return false;
      }
      var snapshot := saving.value;
      saving := None;
      Retire(snapshot, {snapshot}, At(stuck, 0));
      CloseResources(stuck, 1);
      done := true;
    }

    /** Once the session is locked with nothing left over and every copy is closed, no plaintext remains. */
    lemma NothingLeft(p: InlinePayload)
      requires Valid() && locked && retired == [] && dropped == {} && (forall r :: r in exports ==> r.closed)
      requires p in heap.all
      ensures p.closed && Wiped(p.storage)
    {
      assert forall r :: r in heap.made ==> r.closed && Fit(heap.all, r);
      assert forall q :: q in heap.all ==> q.closed;
      assert OpenLeases(heap.all, p.storage) == {};
      heap.WipedWithLastOwner(p);
    }
  }

  // ---------------------------------------------------------------- whole runs

  datatype Request =
    | Change(plan: seq<Planned>, adopted: seq<Bytes>)
    | Freeze
    | Abort
    | Finish(plan: seq<Planned>, adopted: seq<Bytes>)
    | HandOut
    | Return(copy: nat)
    | LockNow
    | DiscardNow
    | Suspended

  /** One request, and the owners that fail to close in each of its closes. */
  datatype Attempt = Attempt(request: Request, stuck: seq<set<nat>>)

  predicate Returns(attempt: Attempt, i: nat) {
    attempt.request == Return(i)
  }

  method Serve(session: SessionRevisions, attempt: Attempt)
    requires session.Valid()
    modifies session, session.heap, session.heap.repr
    ensures session.Valid() && session.Carried()
    ensures forall i :: 0 <= i < |old(session.exports)| && old(session.exports[i].Open()) && !Returns(attempt, i) ==>
              session.exports[i].Open()
    ensures old(session.Tidy()) && Unstuck(attempt.stuck) ==> session.Tidy()
  {
    hide LeaseHeap.Sound, Content, PlannedContent, Assembled;
    match attempt.request
    case Change(plan, adopted) => var _ := session.Edit(plan, adopted, attempt.stuck);
    case Freeze => var _ := session.BeginSave();
    case Abort => var _ := session.AbortSave(attempt.stuck);
    case Finish(plan, adopted) => var _ := session.FinishSave(plan, adopted, attempt.stuck);
    case HandOut => var _ := session.Export();
    case Return(copy) => session.CloseExport(copy, attempt.stuck);
    case LockNow => var _ := session.Lock(attempt.stuck);
    case DiscardNow => var _ := session.Discard(attempt.stuck);
    case Suspended => var _ := session.FinishSuspend(attempt.stuck);
  }

  /**
   Over every sequence of edits, saves, suspensions, exports and closings, with any of the closes
   failing: every revision ever made that is not closed reads the bytes it was made with; every
   buffer is wiped once its last owner is closed and holds its bytes until then; a copy handed out
   is closed by nobody but its holder; and if no close failed, the live revision can be read until
   the session ends, after which the copies handed out are all that is left.
   */
  method Drive(session: SessionRevisions, attempts: seq<Attempt>)
    requires session.Valid()
    modifies session, session.heap, session.heap.repr
    ensures session.Valid() && session.Carried()
    ensures forall r :: r in session.heap.made && r.Open() ==>
              forall k :: 0 <= k < |r.fields| ==> Readable(r.fields[k]) == Content(r)[k]
    ensures forall p :: p in session.heap.all ==>
              if OpenLeases(session.heap.all, p.storage) == {} then Wiped(p.storage)
              else Readable(p) == p.storage.original
    ensures forall i :: 0 <= i < |old(session.exports)| && old(session.exports[i].Open())
                        && (forall j :: 0 <= j < |attempts| ==> !Returns(attempts[j], i)) ==>
              session.exports[i].Open()
    ensures old(session.Tidy()) && (forall j :: 0 <= j < |attempts| ==> Unstuck(attempts[j].stuck)) ==>
              && session.Tidy() && (!session.locked ==> session.document.Open())
              && (session.locked ==> forall r :: r in session.heap.made && r !in session.exports ==> r.closed)
  {
    hide LeaseHeap.Sound;
    var i := 0;
    while i < |attempts|
      invariant 0 <= i <= |attempts| && session.Valid() && session.Carried()
      invariant forall e :: 0 <= e < |old(session.exports)| && old(session.exports[e].Open())
                            && (forall j :: 0 <= j < i ==> !Returns(attempts[j], e)) ==>
                  session.exports[e].Open()
      invariant old(session.Tidy()) && (forall j :: 0 <= j < i ==> Unstuck(attempts[j].stuck)) ==> session.Tidy()
    {
      Serve(session, attempts[i]);
      i := i + 1;
    }
    forall r, k | r in session.heap.made && r.Open() && 0 <= k < |r.fields|
      ensures Readable(r.fields[k]) == Content(r)[k]
    {
      session.heap.OpenReads(r, k);
    }
    forall p | p in session.heap.all
      ensures if OpenLeases(session.heap.all, p.storage) == {} then Wiped(p.storage)
              else Readable(p) == p.storage.original
    {
      session.heap.WipedWithLastOwner(p);
    }
  }
}

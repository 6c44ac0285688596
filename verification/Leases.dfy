/**
 Shared plaintext on the heap: payload owners hold leases on one mutable buffer, revisions retain
 and close owners, and the buffer is wiped exactly when its last lease closes. Nothing done to one
 revision changes a byte readable through another.
 */
module Leases {
  import opened Basics

  class InlineStorage {
    const data: array<Byte>
    ghost const original: Bytes
    var leases: nat

    /** Adopt a buffer; `original` remembers what it held. */
    constructor (data: array<Byte>)
      ensures this.data == data && leases == 1 && original == data[..]
    {
      this.data, original, leases := data, data[..], 1;
    }
  }

  class InlinePayload {
    const storage: InlineStorage
    var closed: bool

    constructor (storage: InlineStorage)
      ensures this.storage == storage && !closed
    {
      this.storage, closed := storage, false;
    }
  }

  /** The owners of one storage that are still open. */
  ghost function OpenLeases(all: set<InlinePayload>, storage: InlineStorage): set<InlinePayload>
    reads all
  {
    set p | p in all && p.storage == storage && !p.closed
  }

  ghost predicate Zeroed(data: array<Byte>)
    reads data
  {
    forall i :: 0 <= i < data.Length ==> data[i] == 0
  }

  ghost predicate Wiped(storage: InlineStorage)
    reads storage.data
  {
    Zeroed(storage.data)
  }

  /**
   Every storage counts its open owners and storages do not share buffers. One with owners holds
   what it adopted, one without is wiped.
   */
  ghost predicate Accounted(all: set<InlinePayload>)
    reads all, set p | p in all :: p.storage, set p | p in all :: p.storage.data
  {
    && (forall p :: p in all ==> p.storage.leases == |OpenLeases(all, p.storage)|)
    && (forall p :: p in all && p.storage.leases == 0 ==> Wiped(p.storage))
    && (forall p :: p in all && p.storage.leases > 0 ==> p.storage.data[..] == p.storage.original)
    && (forall p, q :: p in all && q in all && p.storage != q.storage ==> p.storage.data != q.storage.data)
  }

  /** What an open owner lets its reader see. */
  ghost function Readable(p: InlinePayload): seq<Byte>
    reads p.storage.data
  {
    p.storage.data[..]
  }

  /** A storage is wiped when its last open owner is gone, and until then every owner reads what it adopted. */
  lemma WipedExactly(all: set<InlinePayload>, p: InlinePayload)
    requires Accounted(all) && p in all
    ensures if OpenLeases(all, p.storage) == {} then Wiped(p.storage) else Readable(p) == p.storage.original
    ensures !p.closed ==> Readable(p) == p.storage.original
  {
    assert !p.closed ==> p in OpenLeases(all, p.storage);
  }

  /** Take another lease on the storage of an open owner. */
  method Retain(ghost all: set<InlinePayload>, p: InlinePayload) returns (lease: InlinePayload)
    requires Accounted(all) && p in all && !p.closed
    modifies p.storage
    ensures fresh(lease) && lease.storage == p.storage && !lease.closed
    ensures Accounted(all + {lease})
  {
    assert p in OpenLeases(all, p.storage);
    lease := new InlinePayload(p.storage);
    p.storage.leases := p.storage.leases + 1;
    MoreLeases(all, p, lease);
  }

  lemma MoreLeases(all: set<InlinePayload>, p: InlinePayload, lease: InlinePayload)
    requires p in all && !p.closed && lease !in all && !lease.closed && lease.storage == p.storage
    requires forall q :: q in all ==>
               q.storage.leases == |OpenLeases(all, q.storage)| + (if q.storage == p.storage then 1 else 0)
    requires forall q :: q in all && q.storage.leases == 0 ==> Wiped(q.storage)
    requires forall q :: q in all && q.storage.leases > 0 ==> q.storage.data[..] == q.storage.original
    requires forall q, r :: q in all && r in all && q.storage != r.storage ==> q.storage.data != r.storage.data
    ensures Accounted(all + {lease})
  {
    hide Zeroed;
    var every := all + {lease};
    forall q | q in every
      ensures q.storage.leases == |OpenLeases(every, q.storage)|
    {
      if q.storage == p.storage {
        assert OpenLeases(every, q.storage) == OpenLeases(all, p.storage) + {lease};
      } else {
        assert OpenLeases(every, q.storage) == OpenLeases(all, q.storage);
      }
    }
  }

  /** Take a buffer over: its first lease. */
  method Adopt(ghost all: set<InlinePayload>, content: Bytes) returns (lease: InlinePayload)
    requires Accounted(all)
    ensures fresh(lease) && fresh(lease.storage) && fresh(lease.storage.data)
    ensures !lease.closed && lease.storage.original == content
    ensures Accounted(all + {lease})
  {
    hide Accounted, OpenLeases;
    var data := new Byte[|content|](i requires 0 <= i < |content| => content[i]);
    assert data[..] == content;
    var storage := new InlineStorage(data);
    lease := new InlinePayload(storage);
    FirstLease(all, lease);
  }

  lemma FirstLease(all: set<InlinePayload>, lease: InlinePayload)
    requires Accounted(all) && lease !in all && !lease.closed
    requires forall q :: q in all ==> q.storage != lease.storage && q.storage.data != lease.storage.data
    requires lease.storage.leases == 1 && lease.storage.data[..] == lease.storage.original
    ensures Accounted(all + {lease})
  {
    hide Zeroed;
    var every := all + {lease};
    forall q | q in every
      ensures q.storage.leases == |OpenLeases(every, q.storage)|
    {
      if q == lease {
        assert OpenLeases(every, lease.storage) == {lease};
      } else {
        assert OpenLeases(every, q.storage) == OpenLeases(all, q.storage);
      }
    }
  }

  /** Give up one lease; the last one wipes the buffer first. */
  method Close(ghost all: set<InlinePayload>, p: InlinePayload)
    requires Accounted(all) && p in all
    modifies p, p.storage, p.storage.data
    ensures Accounted(all) && p.closed
    ensures forall q :: q in all && q != p ==> q.closed == old(q.closed)
    ensures forall q :: q in all && q != p && !q.closed ==> Readable(q) == old(Readable(q))
    ensures OpenLeases(all, p.storage) == {} ==> Wiped(p.storage)
  {
    hide Zeroed;
    if !p.closed {
      Release(all, p);
    }
    CountedWipe(all, p);
  }

  /** Release the lease of an open owner. */
  method Release(ghost all: set<InlinePayload>, p: InlinePayload)
    requires Accounted(all) && p in all && !p.closed
    modifies p, p.storage, p.storage.data
    ensures Accounted(all) && p.closed
    ensures forall q :: q in all && q != p && !q.closed ==> Readable(q) == old(Readable(q))
  {
    hide Zeroed;
    ghost var before := OpenLeases(all, p.storage);
    assert p in before;
    if p.storage.leases > 1 {
      p.storage.leases := p.storage.leases - 1;
    } else {
      OnlyLease(before, p);
      assert forall q :: q in all && q != p && q.storage == p.storage && !q.closed ==> q in before;
      WipeBuffer(p.storage.data);
      p.storage.leases := 0;
    }
    p.closed := true;
    assert OpenLeases(all, p.storage) == before - {p};
    forall q | q in all
      ensures q.storage.leases == |OpenLeases(all, q.storage)|
    {
      if q.storage == p.storage {
        assert OpenLeases(all, q.storage) == OpenLeases(all, p.storage);
      } else {
        assert OpenLeases(all, q.storage) == old(OpenLeases(all, q.storage));
      }
    }
  }

  lemma OnlyLease(leases: set<InlinePayload>, p: InlinePayload)
    requires p in leases && |leases| == 1
    ensures leases == {p}
  {
    assert |leases - {p}| == 0;
  }

  lemma CountedWipe(all: set<InlinePayload>, p: InlinePayload)
    requires Accounted(all) && p in all
    ensures OpenLeases(all, p.storage) == {} ==> Wiped(p.storage)
  {
  }

  method WipeBuffer(data: array<Byte>)
    modifies data
    ensures Zeroed(data)
  {
    var i := 0;
    while i < data.Length
      invariant 0 <= i <= data.Length
      invariant forall k :: 0 <= k < i ==> data[k] == 0
    {
      data[i] := 0;
      i := i + 1;
    }
  }

  // ---------------------------------------------------------------- revisions

  /** The fields of one revision are open owners; two fields may share one. */
  ghost predicate Live(all: set<InlinePayload>, fields: seq<InlinePayload>)
    reads fields
  {
    forall i :: 0 <= i < |fields| ==> fields[i] in all && !fields[i].closed
  }

  /** Close every owner of a revision: its owners end, every other live owner reads what it read before. */
  method CloseRevision(ghost all: set<InlinePayload>, payloads: seq<InlinePayload>)
    requires Accounted(all) && forall i :: 0 <= i < |payloads| ==> payloads[i] in all
    modifies payloads, set p | p in payloads :: p.storage, set p | p in payloads :: p.storage.data
    ensures Accounted(all) && forall p :: p in payloads ==> p.closed
    ensures forall q :: q in all && q !in payloads ==> q.closed == old(q.closed)
    ensures forall q :: q in all && q !in payloads && !q.closed ==> Readable(q) == old(Readable(q))
    ensures forall p :: p in payloads && OpenLeases(all, p.storage) == {} ==> Wiped(p.storage)
  {
    hide Accounted, OpenLeases, Wiped;
    var i := 0;
    while i < |payloads|
      invariant 0 <= i <= |payloads| && Accounted(all)
      invariant forall k :: 0 <= k < i ==> payloads[k].closed
      invariant forall q :: q in all && q !in payloads ==> q.closed == old(q.closed)
      invariant forall q :: q in all && q !in payloads && !q.closed ==> Readable(q) == old(Readable(q))
    {
      Close(all, payloads[i]);
      i := i + 1;
    }
    forall p | p in payloads
      ensures OpenLeases(all, p.storage) == {} ==> Wiped(p.storage)
    {
      CountedWipe(all, p);
    }
  }
}

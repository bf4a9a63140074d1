/** The storage object over a keyring: entries are looked up once and kept. */
module KeyringStorages {
  import opened Keyrings

  /** How many entries read looks at, counted from the first. */
  function Visited(ring: Ring, k: nat, locked: set<Slot>): (n: nat)
    ensures n > k
    decreases From(ring, k)
  {
    if Slot(k) !in locked && Slot(k) in ring && EndsWith(ring[Slot(k)], CONTINUE_MARKER) then
      assert Slot(k) in From(ring, k) && Slot(k) !in From(ring, k + 1);
      Visited(ring, k + 1, locked)
    else k + 1
  }

  /** What deleting entries k to n leaves, and whether it got to the end. */
  function Deleted(ring: Ring, k: nat, n: nat, refused: set<Slot>): (Ring, bool)
    decreases n - k
  {
    if k >= n then (ring, true)
    else if Slot(k) !in ring || Slot(k) in refused then (ring, false)
    else Deleted(ring - {Slot(k)}, k + 1, n, refused)
  }

  lemma {:induction false} DeletedEntries(ring: Ring, k: nat, n: nat, refused: set<Slot>, s: Slot)
    ensures var (ring', ok) := Deleted(ring, k, n, refused);
      && (s in ring' ==> s in ring && ring'[s] == ring[s])
      && (!(k <= s.i < n) ==> (s in ring' <==> s in ring))
      && (ok && k <= s.i < n ==> s in ring && s !in refused && s !in ring')
    decreases n - k
  {
    if k < n && Slot(k) in ring && Slot(k) !in refused {
      DeletedEntries(ring - {Slot(k)}, k + 1, n, refused, s);
    }
  }

  /** Deleting gets to the end if and only if every entry is there and lets itself be deleted. */
  lemma {:induction false} DeletesAllIff(ring: Ring, k: nat, n: nat, refused: set<Slot>)
    ensures Deleted(ring, k, n, refused).1 <==>
      forall i {:trigger Slot(i)} :: k <= i < n ==> Slot(i) in ring && Slot(i) !in refused
    decreases n - k
  {
    if k < n && Slot(k) in ring && Slot(k) !in refused {
      DeletesAllIff(ring - {Slot(k)}, k + 1, n, refused);
      assert forall i {:trigger Slot(i)} :: k + 1 <= i < n ==> (Slot(i) in ring - {Slot(k)} <==> Slot(i) in ring);
    } else if k < n {
      assert Slot(k) !in ring || Slot(k) in refused;
    }
  }

  /** Read looks at the entries of a clean secret and at no more; else it goes on to older ones. */
  lemma {:induction false} VisitedAfterStore(ring: Ring, sealed: string, k: nat, step: nat)
    requires step > 0
    ensures var ring' := Written(ring, sealed, k, step, {}).0;
      var r := Remainder(sealed, step);
      Visited(ring', k, {}) ==
        if r != "" && !EndsWith(r, CONTINUE_MARKER) then k + Entries(sealed, step)
        else Visited(ring, k + Entries(sealed, step), {})
    decreases |sealed|
  {
    if sealed == "" {
    } else if |sealed| < step {
      VisitedDependsOnLater(ring[Slot(k) := sealed], ring, k + 1);
    } else {
      var part, rest := sealed[..step], sealed[step..];
      assert part + rest == sealed;
      var ring1 := ring[Slot(k) := part + CONTINUE_MARKER];
      VisitedAfterStore(ring1, rest, k + 1, step);
      VisitedAfterLongStore(ring, part, rest, k);
      StoreContinues(ring, part, rest, k);
    }
  }

  lemma VisitedAfterLongStore(ring: Ring, part: string, rest: string, k: nat)
    requires part != ""
    ensures var ring1 := ring[Slot(k) := part + CONTINUE_MARKER];
      Visited(Written(ring, part + rest, k, |part|, {}).0, k, {})
        == Visited(Written(ring1, rest, k + 1, |part|, {}).0, k + 1, {})
      && Visited(ring1, k + 1 + Entries(rest, |part|), {}) == Visited(ring, k + 1 + Entries(rest, |part|), {})
  {
    var ring1 := ring[Slot(k) := part + CONTINUE_MARKER];
    StoreContinues(ring, part, rest, k);
    WrittenEntries(ring1, rest, k + 1, |part|, {}, Slot(k));
    EndsWithIs(part, CONTINUE_MARKER);
    VisitedDependsOnLater(ring1, ring, k + 1 + Entries(rest, |part|));
  }

  lemma {:induction false} VisitedDependsOnLater(a: Ring, b: Ring, k: nat)
    requires AgreeFrom(a, b, k)
    ensures Visited(a, k, {}) == Visited(b, k, {})
    decreases From(a, k)
  {
    if Slot(k) in a && EndsWith(a[Slot(k)], CONTINUE_MARKER) {
      assert Slot(k) in From(a, k) && Slot(k) !in From(a, k + 1);
      VisitedDependsOnLater(a, b, k + 1);
    }
  }

  /** On a fresh keyring a secret can be cleared again if and only if it can be read again. */
  lemma ClearableIffClean(sealed: string, step: nat)
    requires step > 0
    ensures var ring := Written(map[], sealed, 0, step, {}).0;
      Deleted(ring, 0, Visited(ring, 0, {}), {}).1 <==> Clean(sealed, step)
  {
    var ring := Written(map[], sealed, 0, step, {}).0;
    var n := Entries(sealed, step);
    CleanIs(sealed, step);
    VisitedAfterStore(map[], sealed, 0, step);
    DeletesAllIff(ring, 0, Visited(ring, 0, {}), {});
    forall i {:trigger Slot(i)} | 0 <= i < n ensures Slot(i) in ring {
      ReadAfterStore(map[], sealed, 0, step);
      WrittenEntries(map[], sealed, 0, step, {}, Slot(i));
    }
    WrittenEntries(map[], sealed, 0, step, {}, Slot(n));
  }

  // ----- the object -----

  class KeyringService {
    var slots: Ring

    constructor ()
      ensures slots == map[]
    {
      slots := map[];
    }
  }

  class KeyringStorage {
    const service: KeyringService
    const step: nat
    var entries: seq<Slot>

    predicate Valid()
      reads this
    {
      step > 0 && forall k :: 0 <= k < |entries| ==> entries[k] == Slot(k)
    }

    constructor (service: KeyringService, entryLimit: nat)
      requires entryLimit > |CONTINUE_MARKER|
      ensures Valid() && this.service == service && step == entryLimit - |CONTINUE_MARKER| && entries == []
    {
      this.service, step, entries := service, entryLimit - |CONTINUE_MARKER|, [];
    }

    method GetNextEntry(i: nat) returns (e: Slot)
      requires Valid() && i <= |entries|
      modifies this`entries
      ensures Valid() && e == Slot(i) && |entries| == if i < old(|entries|) then old(|entries|) else i + 1
    {
      if i < |entries| {
        e := entries[i];
      } else {
        e := Slot(i);
        entries := entries + [e];
      }
    }

    method Store(sealed: string, refused: set<Slot>) returns (ok: bool)
      requires Valid()
      modifies this`entries, service
      ensures Valid()
      ensures (service.slots, ok) == Written(old(service.slots), sealed, 0, step, refused)
    {
      var i := 0;
      ghost var k := 0;
      while i < |sealed|
        invariant Valid() && k <= |entries| && i == k * step
        invariant i <= |sealed| ==>
          Written(service.slots, sealed[i..], k, step, refused) == Written(old(service.slots), sealed, 0, step, refused)
        invariant i > |sealed| ==>
          (service.slots, true) == Written(old(service.slots), sealed, 0, step, refused)
        decreases |sealed| - i
      {
        var rest := sealed[i..];
        QuotientIs(k, step);
        var entry := GetNextEntry(i / step);
        var cutoff := i + step;
        if entry in refused {
          return false;
        }
        if cutoff <= |sealed| {
          service.slots := service.slots[entry := sealed[i..cutoff] + CONTINUE_MARKER];
          assert rest[..step] == sealed[i..cutoff] && rest[step..] == sealed[cutoff..];
        } else {
          service.slots := service.slots[entry := sealed[i..]];
        }
        i, k := cutoff, k + 1;
      }
      return true;
    }

    method Read(locked: set<Slot>) returns (r: Reading)
      requires Valid()
      modifies this`entries
      ensures Valid() && r == ReadFrom(service.slots, 0, locked)
      ensures var n := Visited(service.slots, 0, locked);
        |entries| == if n < old(|entries|) then old(|entries|) else n
    {
      var str, i := "", 0;
      ghost var whole := ReadFrom(service.slots, 0, locked);
      while true
        invariant Valid() && i <= |entries|
        invariant Prepend(str, ReadFrom(service.slots, i, locked)) == whole
        invariant Visited(service.slots, i, locked) == Visited(service.slots, 0, locked)
        invariant |entries| == if i < old(|entries|) then old(|entries|) else i
        decreases From(service.slots, i)
      {
        var entry := GetNextEntry(i);
        if entry in locked {
          return Unreadable;
        }
        if entry !in service.slots {
          return Missing;
        }
        var next := service.slots[entry];
        if EndsWith(next, CONTINUE_MARKER) {
          assert entry in From(service.slots, i) && entry !in From(service.slots, i + 1);
          PrependTwice(str, next[..|next| - |CONTINUE_MARKER|], ReadFrom(service.slots, i + 1, locked));
          str := str + next[..|next| - |CONTINUE_MARKER|];
          i := i + 1;
        } else {
          return Found(str + next);
        }
      }
    }

    /** Succeeds if and only if every entry known after a read can be deleted; then nothing can be read any more. */
    method Clear(locked: set<Slot>, refused: set<Slot>) returns (ok: bool)
      requires Valid()
      modifies this`entries, service
      ensures Valid()
      ensures var v := old(Visited(service.slots, 0, locked));
        (service.slots, ok) == Deleted(old(service.slots), 0, if v < old(|entries|) then old(|entries|) else v, refused)
      ensures ok ==> entries == [] && ReadFrom(service.slots, 0, {}) == Missing
    {
      var _ := Read(locked);
      var n := |entries|;
      for k := 0 to n
        invariant Valid() && |entries| == n
        invariant Deleted(service.slots, k, n, refused) == Deleted(old(service.slots), 0, n, refused)
      {
        var entry := entries[k];
        if entry !in service.slots || entry in refused {
          return false;
        }
        service.slots := service.slots - {entry};
      }
      entries := [];
      DeletedEntries(old(service.slots), 0, n, refused, Slot(0));
      return true;
    }
  }

  lemma QuotientIs(k: nat, step: nat)
    requires step > 0
    ensures k * step / step == k
  {
    var q := k * step / step;
    Distribute(step, k, q);
    if k - q >= 1 {
      AtLeastOnce(step, k - q);
    } else if q - k >= 1 {
      AtLeastOnce(step, q - k);
    }
  }

  lemma PrependTwice(a: string, b: string, r: Reading)
    ensures Prepend(a, Prepend(b, r)) == Prepend(a + b, r)
  {
    if r.Found? {
      assert a + (b + r.text) == a + b + r.text;
    }
  }
}

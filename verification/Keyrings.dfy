/** A secret split over several keyring entries, each but the last marked as continued. */
module Keyrings {
  const CONTINUE_MARKER := "<MORE>"

  /** The keyring entry "vscode-cli-i". */
  datatype Slot = Slot(i: nat)

  type Ring = map<Slot, string>

  datatype Reading = Found(text: string) | Missing | Unreadable

  predicate EndsWith(s: string, suffix: string) {
    |suffix| <= |s| && s[|s| - |suffix|..] == suffix
  }

  // ----- what store and read do to a keyring -----

  /** What store leaves in the keyring from entry k on, and whether it got to the end. */
  function Written(ring: Ring, sealed: string, k: nat, step: nat, refused: set<Slot>): (Ring, bool)
    requires step > 0
    decreases |sealed|
  {
    if sealed == "" then (ring, true)
    else if Slot(k) in refused then (ring, false)
    else if step <= |sealed| then
      Written(ring[Slot(k) := sealed[..step] + CONTINUE_MARKER], sealed[step..], k + 1, step, refused)
    else (ring[Slot(k) := sealed], true)
  }

  function From(ring: Ring, k: nat): set<Slot> {
    set s | s in ring && s.i >= k
  }

  function Prepend(s: string, r: Reading): Reading {
    if r.Found? then Found(s + r.text) else r
  }

  function ReadFrom(ring: Ring, k: nat, locked: set<Slot>): Reading
    decreases From(ring, k)
  {
    if Slot(k) in locked then Unreadable
    else if Slot(k) !in ring then Missing
    else if EndsWith(ring[Slot(k)], CONTINUE_MARKER) then
      assert Slot(k) in From(ring, k) && Slot(k) !in From(ring, k + 1);
      Prepend(ring[Slot(k)][..|ring[Slot(k)]| - |CONTINUE_MARKER|], ReadFrom(ring, k + 1, locked))
    else Found(ring[Slot(k)])
  }

  /** The entries from k up to n can all be read, and each says that there is more. */
  predicate Continued(ring: Ring, locked: set<Slot>, k: nat, n: nat) {
    k <= n && forall i {:trigger Slot(i)} | k <= i < n ::
      Slot(i) !in locked && Slot(i) in ring && EndsWith(ring[Slot(i)], CONTINUE_MARKER)
  }

  /** The text of the entries from k up to n, without their markers. */
  function Parts(ring: Ring, k: nat, n: nat): string
    requires k <= n && forall i {:trigger Slot(i)} | k <= i < n ::
      Slot(i) in ring && |CONTINUE_MARKER| <= |ring[Slot(i)]|
    decreases n - k
  {
    if k == n then ""
    else ring[Slot(k)][..|ring[Slot(k)]| - |CONTINUE_MARKER|] + Parts(ring, k + 1, n)
  }

  /** How the reading ends at entry n, if it gets there. */
  function EndsAt(ring: Ring, locked: set<Slot>, k: nat, n: nat): Reading
    requires Continued(ring, locked, k, n)
  {
    if Slot(n) in locked then Unreadable
    else if Slot(n) !in ring then Missing
    else Found(Parts(ring, k, n) + ring[Slot(n)])
  }

  /**
   A reading follows the marked entries up to the first one that is not marked, and tells an entry that cannot
   be read from one that is not there and from one that ends the secret.
   */
  lemma {:induction false} ReadingEnds(ring: Ring, k: nat, locked: set<Slot>) returns (n: nat)
    ensures Continued(ring, locked, k, n) && !Continued(ring, locked, k, n + 1)
    ensures ReadFrom(ring, k, locked) == EndsAt(ring, locked, k, n)
    decreases From(ring, k)
  {
    if Slot(k) in locked || Slot(k) !in ring || !EndsWith(ring[Slot(k)], CONTINUE_MARKER) {
      n := k;
    } else {
      assert Slot(k) in From(ring, k) && Slot(k) !in From(ring, k + 1);
      n := ReadingEnds(ring, k + 1, locked);
      forall i {:trigger Slot(i)} | k <= i < n
        ensures Slot(i) !in locked && Slot(i) in ring && EndsWith(ring[Slot(i)], CONTINUE_MARKER)
      {
        assert i == k || k + 1 <= i;
      }
      if Slot(n) !in locked && Slot(n) in ring {
        var first := ring[Slot(k)][..|ring[Slot(k)]| - |CONTINUE_MARKER|];
        assert first + (Parts(ring, k + 1, n) + ring[Slot(n)]) == first + Parts(ring, k + 1, n) + ring[Slot(n)];
      }
    }
  }

  // ----- the entries store writes -----

  function Entries(sealed: string, step: nat): nat
    requires step > 0
    decreases |sealed|
  {
    if sealed == "" then 0 else if |sealed| < step then 1 else 1 + Entries(sealed[step..], step)
  }

  /** What is left when only whole steps are taken off the front. */
  function Remainder(sealed: string, step: nat): string
    requires step > 0
    decreases |sealed|
  {
    if |sealed| < step then sealed else Remainder(sealed[step..], step)
  }

  lemma Distribute(a: int, b: int, c: int)
    ensures a * (b - c) == a * b - a * c
  {
  }

  lemma AtLeastOnce(step: int, d: int)
    requires step > 0 && d >= 1
    ensures step * d >= step
  {
  }

  lemma ModStep(n: nat, step: nat)
    requires 0 < step <= n
    ensures (n - step) % step == n % step
  {
    var q, q' := n / step, (n - step) / step;
    Distribute(step, q, q');
    if q - q' - 1 >= 1 {
      AtLeastOnce(step, q - q' - 1);
    } else if q' + 1 - q >= 1 {
      AtLeastOnce(step, q' + 1 - q);
    }
  }

  lemma {:induction false} RemainderIs(sealed: string, step: nat)
    requires step > 0
    ensures |Remainder(sealed, step)| == |sealed| % step
    ensures Remainder(sealed, step) == sealed[|sealed| - |Remainder(sealed, step)|..]
    decreases |sealed|
  {
    if step <= |sealed| {
      RemainderIs(sealed[step..], step);
      ModStep(|sealed|, step);
    }
  }

  /** Only the entries of the secret are written; when all goes well, all of them are. */
  lemma {:induction false} WrittenEntries(ring: Ring, sealed: string, k: nat, step: nat, refused: set<Slot>, s: Slot)
    requires step > 0
    ensures var (ring', ok) := Written(ring, sealed, k, step, refused);
      && (!(k <= s.i < k + Entries(sealed, step)) ==>
            (s in ring' <==> s in ring) && (s in ring ==> ring'[s] == ring[s]))
      && (ok && k <= s.i < k + Entries(sealed, step) ==> s in ring' && s !in refused)
    decreases |sealed|
  {
    if sealed != "" && Slot(k) !in refused && step <= |sealed| {
      WrittenEntries(ring[Slot(k) := sealed[..step] + CONTINUE_MARKER], sealed[step..], k + 1, step, refused, s);
      WrittenEntries(ring[Slot(k) := sealed[..step] + CONTINUE_MARKER], sealed[step..], k + 1, step, refused, Slot(k));
    }
  }

  predicate AgreeFrom(a: Ring, b: Ring, k: nat) {
    && (forall s :: s in a && s.i >= k ==> s in b && b[s] == a[s])
    && (forall s :: s in b && s.i >= k ==> s in a)
  }

  lemma {:induction false} ReadDependsOnLater(a: Ring, b: Ring, k: nat, locked: set<Slot>)
    requires AgreeFrom(a, b, k)
    ensures ReadFrom(a, k, locked) == ReadFrom(b, k, locked)
    decreases From(a, k)
  {
    if Slot(k) !in locked && Slot(k) in a && EndsWith(a[Slot(k)], CONTINUE_MARKER) {
      assert Slot(k) in From(a, k) && Slot(k) !in From(a, k + 1);
      ReadDependsOnLater(a, b, k + 1, locked);
    }
  }

  // ----- reading back what was stored -----

  /** The last entry carries no marker and does not look as if it did. */
  predicate Clean(sealed: string, step: nat)
    requires step > 0
  {
    var last := |sealed| % step;
    last != 0 && !(|CONTINUE_MARKER| <= last && EndsWith(sealed, CONTINUE_MARKER))
  }

  function WithoutMarker(s: string): string {
    if |CONTINUE_MARKER| <= |s| then s[..|s| - |CONTINUE_MARKER|] else ""
  }

  /** What read takes for a marker at the end of the secret itself. */
  function CutOff(sealed: string, step: nat): string
    requires step > 0
  {
    if |sealed| % step == 0 then "" else CONTINUE_MARKER
  }

  lemma EndsWithIs(s: string, suffix: string)
    ensures EndsWith(s + suffix, suffix) && (s + suffix)[..|s + suffix| - |suffix|] == s
  {
  }

  /** What is read back, given the last piece of the secret and what an earlier secret left behind it. */
  function ReadBack(sealed: string, last: string, next: Reading): Reading {
    if last == "" then Prepend(sealed, next)
    else if EndsWith(last, CONTINUE_MARKER) then Prepend(WithoutMarker(sealed), next)
    else Found(sealed)
  }

  lemma ReadBackLonger(part: string, rest: string, last: string, next: Reading)
    requires |last| <= |rest|
    ensures Prepend(part, ReadBack(rest, last, next)) == ReadBack(part + rest, last, next)
  {
    if next.Found? {
      assert part + (rest + next.text) == part + rest + next.text;
      assert part + (WithoutMarker(rest) + next.text) == part + WithoutMarker(rest) + next.text;
    }
    if |CONTINUE_MARKER| <= |rest| {
      assert WithoutMarker(part + rest) == part + WithoutMarker(rest);
    }
  }

  lemma ReadContinues(ring: Ring, k: nat, part: string)
    requires Slot(k) in ring && ring[Slot(k)] == part + CONTINUE_MARKER
    ensures ReadFrom(ring, k, {}) == Prepend(part, ReadFrom(ring, k + 1, {}))
  {
    EndsWithIs(part, CONTINUE_MARKER);
  }

  lemma StoreContinues(ring: Ring, part: string, rest: string, k: nat)
    requires part != ""
    ensures Written(ring, part + rest, k, |part|, {})
      == Written(ring[Slot(k) := part + CONTINUE_MARKER], rest, k + 1, |part|, {})
    ensures Entries(part + rest, |part|) == 1 + Entries(rest, |part|)
    ensures Remainder(part + rest, |part|) == Remainder(rest, |part|)
  {
    assert (part + rest)[..|part|] == part && (part + rest)[|part|..] == rest;
  }

  lemma {:induction false} ReadAfterLongStore(ring: Ring, part: string, rest: string, k: nat)
    requires part != ""
    requires var ring1 := ring[Slot(k) := part + CONTINUE_MARKER];
      var (ring', ok) := Written(ring1, rest, k + 1, |part|, {});
      ok && ReadFrom(ring', k + 1, {})
        == ReadBack(rest, Remainder(rest, |part|), ReadFrom(ring1, k + 1 + Entries(rest, |part|), {}))
    ensures var (ring', ok) := Written(ring, part + rest, k, |part|, {});
      ok && ReadFrom(ring', k, {})
        == ReadBack(part + rest, Remainder(rest, |part|), ReadFrom(ring, k + 1 + Entries(rest, |part|), {}))
  {
    var ring1, step := ring[Slot(k) := part + CONTINUE_MARKER], |part|;
    StoreContinues(ring, part, rest, k);
    WrittenEntries(ring1, rest, k + 1, step, {}, Slot(k));
    ReadContinues(Written(ring1, rest, k + 1, step, {}).0, k, part);
    ReadDependsOnLater(ring1, ring, k + 1 + Entries(rest, step), {});
    RemainderFits(rest, step);
    ReadBackLonger(part, rest, Remainder(rest, step), ReadFrom(ring, k + 1 + Entries(rest, step), {}));
  }

  /**
   What is read after a store: the secret, unless its last entry looks continued. Then reading goes on
   with whatever an earlier secret left in the next entry.
   */
  lemma {:induction false} ReadAfterStore(ring: Ring, sealed: string, k: nat, step: nat)
    requires step > 0
    ensures var (ring', ok) := Written(ring, sealed, k, step, {});
      ok && ReadFrom(ring', k, {})
        == ReadBack(sealed, Remainder(sealed, step), ReadFrom(ring, k + Entries(sealed, step), {}))
    decreases |sealed|
  {
    if sealed == "" {
      var next := ReadFrom(ring, k, {});
      assert next.Found? ==> "" + next.text == next.text;
    } else if |sealed| < step {
      ReadDependsOnLater(ring[Slot(k) := sealed], ring, k + 1, {});
    } else {
      var part, rest := sealed[..step], sealed[step..];
      ReadAfterStore(ring[Slot(k) := part + CONTINUE_MARKER], rest, k + 1, step);
      ReadAfterLongStore(ring, part, rest, k);
      StoreContinues(ring, part, rest, k);
      assert part + rest == sealed;
    }
  }

  lemma {:induction false} RemainderFits(sealed: string, step: nat)
    requires step > 0
    ensures |Remainder(sealed, step)| <= |sealed|
    decreases |sealed|
  {
    if step <= |sealed| {
      RemainderFits(sealed[step..], step);
    }
  }

  function StoredAndRead(ring: Ring, sealed: string, step: nat): Reading
    requires step > 0
  {
    ReadFrom(Written(ring, sealed, 0, step, {}).0, 0, {})
  }

  lemma SameAfterPrepend(s: string, cut: string, next: Reading)
    ensures Prepend(s, next) == Found(s + cut) <==> next == Found(cut)
  {
    if next.Found? && s + next.text == s + cut {
      assert (s + next.text)[|s|..] == next.text && (s + cut)[|s|..] == cut;
    }
  }

  lemma CleanIs(sealed: string, step: nat)
    requires step > 0
    ensures var r := Remainder(sealed, step);
      Clean(sealed, step) <==> r != "" && !EndsWith(r, CONTINUE_MARKER)
    ensures Remainder(sealed, step) == "" <==> |sealed| % step == 0
  {
    RemainderIs(sealed, step);
    var r := Remainder(sealed, step);
    if |CONTINUE_MARKER| <= |r| {
      assert r[|r| - |CONTINUE_MARKER|..] == sealed[|sealed| - |CONTINUE_MARKER|..];
    }
  }

  /** When exactly a stored secret is read back. */
  lemma RoundTripIff(ring: Ring, sealed: string, step: nat)
    requires step > 0
    ensures StoredAndRead(ring, sealed, step) == Found(sealed) <==>
      Clean(sealed, step) || ReadFrom(ring, Entries(sealed, step), {}) == Found(CutOff(sealed, step))
  {
    ReadAfterStore(ring, sealed, 0, step);
    CleanIs(sealed, step);
    var next := ReadFrom(ring, Entries(sealed, step), {});
    if |sealed| % step == 0 {
      SameAfterPrepend(sealed, "", next);
      assert sealed + "" == sealed;
    } else if !Clean(sealed, step) {
      SameAfterPrepend(WithoutMarker(sealed), CONTINUE_MARKER, next);
      assert sealed == WithoutMarker(sealed) + CONTINUE_MARKER;
    }
  }

  /** Whatever was stored before, a clean secret is read back; no other secret is safe on every keyring. */
  lemma CleanIffAlwaysReadBack(sealed: string, step: nat)
    requires step > 0
    ensures Clean(sealed, step) <==> forall ring: Ring :: StoredAndRead(ring, sealed, step) == Found(sealed)
  {
    forall ring: Ring | Clean(sealed, step) ensures StoredAndRead(ring, sealed, step) == Found(sealed) {
      RoundTripIff(ring, sealed, step);
    }
    RoundTripIff(map[], sealed, step);
    assert ReadFrom(map[], Entries(sealed, step), {}) == Missing;
  }

  /** A whole number of steps gets a marker on its last entry: read finds the next entry missing on a fresh keyring. */
  lemma WholeStepsAreLost(sealed: string, step: nat)
    requires step > 0 && |sealed| % step == 0
    ensures StoredAndRead(map[], sealed, step) == Missing
  {
    ReadAfterStore(map[], sealed, 0, step);
    CleanIs(sealed, step);
  }

  /** A refused entry: the ones before it are written, nothing else is. */
  lemma {:induction false} RefusedStoreStops(ring: Ring, sealed: string, k: nat, step: nat, refused: set<Slot>)
    requires step > 0
    ensures Written(ring, sealed, k, step, refused).1 <==>
      forall i {:trigger Slot(i)} :: k <= i < k + Entries(sealed, step) ==> Slot(i) !in refused
    decreases |sealed|
  {
    if sealed == "" {
    } else if Slot(k) in refused {
      assert k < k + Entries(sealed, step);
    } else if step <= |sealed| {
      RefusedStoreStops(ring[Slot(k) := sealed[..step] + CONTINUE_MARKER], sealed[step..], k + 1, step, refused);
      assert Entries(sealed, step) == 1 + Entries(sealed[step..], step);
    }
  }
}

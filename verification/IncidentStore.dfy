/** The in-memory incident stores (services/operator/internal/controller/store.go and
    services/backend/internal/store/memory.go, which agree): a map under a lock, one locked section a call. */
module IncidentStore {
  import opened Text
  import opened Types

  datatype StoreState = StoreState(incidents: map<string, Incident>, nextID: nat)

  function Decimal(n: nat): string {
    var digit := ['0' + (n % 10) as char];
    if n < 10 then digit else Decimal(n / 10) + digit
  }

  function IncidentId(n: nat): string { "inc-" + Decimal(n) }

  function Created(s: StoreState, inc: Incident): StoreState {
    StoreState(s.incidents[IncidentId(s.nextID + 1) := inc], s.nextID + 1)
  }

  function Updated(s: StoreState, id: string, inc: Incident): StoreState {
    if id in s.incidents then s.(incidents := s.incidents[id := inc]) else s
  }

  /** Every stored id was handed out. */
  predicate Numbered(s: StoreState) {
    forall id :: id in s.incidents ==> exists n :: 1 <= n <= s.nextID && id == IncidentId(n)
  }

  class MemoryIncidentStore {
    var incidents: map<string, Incident>
    var nextID: nat

    function State(): StoreState
      reads this
    {
      StoreState(incidents, nextID)
    }

    constructor ()
      ensures State() == StoreState(map[], 0)
    {
      incidents, nextID := map[], 0;
    }

    method Create(inc: Incident) returns (id: string)
      modifies this
      ensures id == "inc-" + Decimal(old(nextID) + 1) == IncidentId(old(nextID) + 1)
      ensures incidents == old(incidents)[id := inc] && nextID == old(nextID) + 1
      ensures State() == Created(old(State()), inc)
    {
      nextID := nextID + 1;
      id := IncidentId(nextID);
      incidents := incidents[id := inc];
    }

    method Get(id: string) returns (r: Option<Incident>)
      ensures r == if id in incidents then Some(incidents[id]) else None
    {
      return if id in incidents then Some(incidents[id]) else None;
    }

    method Update(id: string, inc: Incident) returns (found: bool)
      modifies this
      ensures found == (id in old(incidents))
      ensures incidents == (if found then old(incidents)[id := inc] else old(incidents)) && nextID == old(nextID)
      ensures State() == Updated(old(State()), id, inc)
    {
      if id !in incidents {
        return false;
      }
      incidents := incidents[id := inc];
      return true;
    }
  }

  /** The number that a text of digits stands for. */
  function Value(digits: string): int {
    if digits == "" then 0
    else 10 * Value(digits[..|digits| - 1]) + (digits[|digits| - 1] as int - '0' as int)
  }

  /** A number's decimal text is digits without a leading zero, and reads as the number. */
  lemma {:induction false} DecimalReads(n: nat)
    ensures var t := Decimal(n);
      && t != "" && (forall i | 0 <= i < |t| :: '0' <= t[i] <= '9') && (t[0] == '0' ==> n == 0)
      && Value(t) == n
  {
    var t := Decimal(n);
    if n < 10 {
      assert t[..0] == "";
    } else {
      DecimalReads(n / 10);
      assert t[..|t| - 1] == Decimal(n / 10);
    }
  }

  lemma {:induction false} DecimalInjective(m: nat, n: nat)
    ensures Decimal(m) == Decimal(n) ==> m == n
  {
    DecimalLength(m);
    DecimalLength(n);
    if Decimal(m) == Decimal(n) {
      var a, b := Decimal(m), Decimal(n);
      assert a[|a| - 1] == '0' + (m % 10) as char && b[|b| - 1] == '0' + (n % 10) as char;
      if m >= 10 && n >= 10 {
        assert a[..|a| - 1] == Decimal(m / 10) && b[..|b| - 1] == Decimal(n / 10);
        DecimalInjective(m / 10, n / 10);
      }
    }
  }

  lemma {:induction false} DecimalLength(n: nat)
    ensures |Decimal(n)| >= 1 && (n >= 10 <==> |Decimal(n)| >= 2)
  {
    if n < 10 {
    } else {
      DecimalLength(n / 10);
    }
  }

  lemma NextIsFresh(s: StoreState)
    requires Numbered(s)
    ensures IncidentId(s.nextID + 1) !in s.incidents
  {
    var id := IncidentId(s.nextID + 1);
    if id in s.incidents {
      var n :| 1 <= n <= s.nextID && id == IncidentId(n);
      assert IncidentId(n)[4..] == Decimal(n) && id[4..] == Decimal(s.nextID + 1);
      DecimalInjective(n, s.nextID + 1);
    }
  }

  /** Creating an incident never replaces one: the new id is fresh and every stored incident is kept. */
  lemma CreateIsFresh(s: StoreState, inc: Incident)
    requires Numbered(s)
    ensures Numbered(Created(s, inc))
    ensures IncidentId(s.nextID + 1) !in s.incidents
    ensures forall id :: id in s.incidents ==>
              id in Created(s, inc).incidents && Created(s, inc).incidents[id] == s.incidents[id]
  {
    NextIsFresh(s);
  }
}

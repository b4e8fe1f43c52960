/**
 The pallet's event log as an indexer sees it.  Replaying the log from genesis gives back the
 registrations and the mapping lists that the pallet stores.
 */
module CnightLogs {
  import opened Common
  import opened CnightTypes
  import opened CnightStep

  type Registrations = map<Address, DustKey>

  /** Every address that has a registration, with its key. */
  function RegistrationsOf(m: Mappings): (r: Registrations)
    ensures forall a :: GetRegistration(m, a) == if a in r then Some(r[a]) else None
  {
    map a | a in m && |m[a]| == 1 :: m[a][0].key
  }

  /**
   An indexer's view.  It accepts a Registration only for an address that has none, and a
   Deregistration only for the key currently registered; any other log is refused.
   */
  function Replay(r: Registrations, log: seq<PalletEvent>): (out: Option<Registrations>)
    decreases |log|
  {
    if log == [] then Some(r)
    else match log[0]
      case Registration(a, key) => if a in r then None else Replay(r[a := key], log[1..])
      case Deregistration(a, key) => if a in r && r[a] == key then Replay(r - {a}, log[1..]) else None
      case _ => Replay(r, log[1..])
  }

  lemma {:induction false} ReplayConcat(r: Registrations, a: seq<PalletEvent>, b: seq<PalletEvent>)
    requires Replay(r, a).Some?
    ensures Replay(r, a + b) == Replay(Replay(r, a).value, b)
    decreases |a|
  {
    if a == [] {
      assert a + b == b;
    } else {
      assert (a + b)[1..] == a[1..] + b;
      match a[0]
      case Registration(x, key) => ReplayConcat(r[x := key], a[1..], b);
      case Deregistration(x, key) => ReplayConcat(r - {x}, a[1..], b);
      case _ => ReplayConcat(r, a[1..], b);
    }
  }

  /** Replacing one mapping list without exchanging one registration for another. */
  lemma ReplayTransition(m: Mappings, a: Address, entries: seq<MappingEntry>)
    requires var before, after := GetRegistration(m, a), GetRegistration(StoreEntries(m, a, entries), a);
             before.None? || after.None? || before == after
    ensures var m' := StoreEntries(m, a, entries);
            Replay(RegistrationsOf(m), Transition(a, GetRegistration(m, a), GetRegistration(m', a))) ==
            Some(RegistrationsOf(m'))
  {
    var m' := StoreEntries(m, a, entries);
    var r, r' := RegistrationsOf(m), RegistrationsOf(m');
    forall b | b != a ensures (b in r <==> b in r') && (b in r ==> r[b] == r'[b]) {
      assert EntriesOf(m, b) == EntriesOf(m', b);
      assert GetRegistration(m, b) == GetRegistration(m', b);
    }
    var before, after := GetRegistration(m, a), GetRegistration(m', a);
    var log := Transition(a, before, after);
    if before.None? && after.Some? {
      assert log[1..] == [] && r[a := after.value] == r';
    } else if before.Some? && after.None? {
      assert log[1..] == [] && r - {a} == r';
    } else {
      assert r == r';
    }
  }

  lemma SetEntriesReplays(s: Storage, a: Address, entries: seq<MappingEntry>, event: PalletEvent)
    requires |EntriesOf(s.mappings, a)| == 1 && |entries| == 1 ==> entries == EntriesOf(s.mappings, a)
    requires event.MappingAdded? || event.MappingRemoved?
    ensures var e := SetEntries(s, a, entries, event);
            Replay(RegistrationsOf(s.mappings), e.log) == Some(RegistrationsOf(e.storage.mappings))
  {
    var m' := StoreEntries(s.mappings, a, entries);
    ReplayTransition(s.mappings, a, entries);
    var t := Transition(a, GetRegistration(s.mappings, a), GetRegistration(m', a));
    ReplayConcat(RegistrationsOf(s.mappings), t, [event]);
    assert Replay(RegistrationsOf(m'), [event]) == Some(RegistrationsOf(m')) by {
      assert [event][1..] == [];
    }
  }

  lemma StepReplays(host: Host, s: Storage, u: ObservedUtxo)
    ensures var e := Step(host, s, u);
            Replay(RegistrationsOf(s.mappings), e.log) == Some(RegistrationsOf(e.storage.mappings))
  {
    if u.data.Register? || u.data.Deregister? {
      var a := u.data.address;
      var entry := EntryOf(u.header, a, u.data.key);
      var before := EntriesOf(s.mappings, a);
      if u.data.Register? {
        SetEntriesReplays(s, a, before + [entry], MappingAdded(entry));
      } else {
        RemoveFirstIsRemoveAt(before, entry);
        SetEntriesReplays(s, a, RemoveFirst(before, entry), MappingRemoved(entry));
      }
    }
  }

  /**
   Replaying the log of any stream from the registrations it started with succeeds and ends in
   exactly the registrations stored, whatever unmatched removals and duplicate mappings it holds.
   */
  lemma {:induction false} RunReplays(host: Host, s: Storage, us: seq<ObservedUtxo>)
    ensures var e := Run(host, s, us);
            Replay(RegistrationsOf(s.mappings), e.log) == Some(RegistrationsOf(e.storage.mappings))
    decreases |us|
  {
    if us != [] {
      var first := Step(host, s, us[0]);
      StepReplays(host, s, us[0]);
      RunReplays(host, first.storage, us[1..]);
      ReplayConcat(RegistrationsOf(s.mappings), first.log, Run(host, first.storage, us[1..]).log);
    }
  }

  predicate Names(e: PalletEvent, a: Address) {
    (e.Registration? || e.Deregistration?) && e.address == a
  }

  /** No registration event between `i` and `j` names `a`. */
  ghost predicate QuietBetween(log: seq<PalletEvent>, i: int, j: int, a: Address)
    requires -1 <= i <= j <= |log|
  {
    forall k :: i < k < j ==> !Names(log[k], a)
  }

  /** Replay stops at the first event it refuses, so every prefix of an accepted log is accepted. */
  lemma {:induction false} ReplayPrefix(r: Registrations, log: seq<PalletEvent>, n: nat)
    requires n <= |log| && Replay(r, log).Some?
    ensures Replay(r, log[..n]).Some?
    decreases n
  {
    if n > 0 {
      assert log[..n][1..] == log[1..][..n - 1];
      match log[0]
      case Registration(a, key) => ReplayPrefix(r[a := key], log[1..], n - 1);
      case Deregistration(a, key) => ReplayPrefix(r - {a}, log[1..], n - 1);
      case _ => ReplayPrefix(r, log[1..], n - 1);
    }
  }

  lemma ReplaySplit(r: Registrations, log: seq<PalletEvent>, n: nat)
    requires n < |log| && Replay(r, log).Some?
    ensures Replay(r, log[..n]).Some?
    ensures Replay(r, log[..n + 1]) == Replay(Replay(r, log[..n]).value, [log[n]])
    ensures Replay(r, log[..n + 1]).Some?
  {
    ReplayPrefix(r, log, n);
    ReplayPrefix(r, log, n + 1);
    assert log[..n + 1] == log[..n] + [log[n]];
    ReplayConcat(r, log[..n], [log[n]]);
  }

  lemma {:induction false} ReplayQuiet(r: Registrations, log: seq<PalletEvent>, i: nat, j: nat, a: Address)
    requires i <= j <= |log| && Replay(r, log).Some?
    requires QuietBetween(log, i - 1, j, a)
    ensures Replay(r, log[..i]).Some? && Replay(r, log[..j]).Some?
    ensures var x, y := Replay(r, log[..i]).value, Replay(r, log[..j]).value;
            (a in x <==> a in y) && (a in x ==> x[a] == y[a])
    decreases j - i
  {
    ReplayPrefix(r, log, i);
    if i < j {
      ReplaySplit(r, log, j - 1);
      ReplayQuiet(r, log, i, j - 1, a);
      assert !Names(log[j - 1], a);
    }
  }

  /**
   In a log that replays, the registration events that name an address strictly alternate, and a
   Deregistration carries the key of the Registration it ends.
   */
  lemma RegistrationEventsAlternate(r: Registrations, log: seq<PalletEvent>, i: nat, j: nat, a: Address)
    requires Replay(r, log).Some?
    requires i < j < |log| && Names(log[i], a) && Names(log[j], a) && QuietBetween(log, i, j, a)
    ensures log[i].Registration? <==> log[j].Deregistration?
    ensures log[j].Deregistration? ==> log[j].key == log[i].key
  {
    ReplaySplit(r, log, i);
    ReplaySplit(r, log, j);
    ReplayQuiet(r, log, i + 1, j, a);
    var x := Replay(r, log[..i]).value;
    assert Replay(x, [log[i]]).Some?;
  }

  /** Before any event that names it, an address is as it was at the start. */
  lemma FirstRegistrationEvent(r: Registrations, log: seq<PalletEvent>, j: nat, a: Address)
    requires Replay(r, log).Some?
    requires j < |log| && Names(log[j], a) && QuietBetween(log, -1, j, a)
    ensures log[j].Registration? <==> a !in r
    ensures log[j].Deregistration? ==> a in r && log[j].key == r[a]
  {
    ReplaySplit(r, log, j);
    ReplayQuiet(r, log, 0, j, a);
    assert log[..0] == [];
  }

  /** The registration of `a` that the last event naming it leaves; without one, what it was at the start. */
  function LastRegistration(start: Option<DustKey>, log: seq<PalletEvent>, a: Address): (r: Option<DustKey>)
    decreases |log|
  {
    if log == [] then start
    else
      var last := log[|log| - 1];
      if !Names(last, a) then LastRegistration(start, log[..|log| - 1], a)
      else if last.Registration? then Some(last.key)
      else None
  }

  function KeyOf(r: Registrations, a: Address): (key: Option<DustKey>) {
    if a in r then Some(r[a]) else None
  }

  lemma {:induction false} LastEventDecides(r: Registrations, log: seq<PalletEvent>, a: Address)
    requires Replay(r, log).Some?
    ensures KeyOf(Replay(r, log).value, a) == LastRegistration(KeyOf(r, a), log, a)
    decreases |log|
  {
    if log != [] {
      var n := |log| - 1;
      ReplaySplit(r, log, n);
      assert log[..n + 1] == log;
      LastEventDecides(r, log[..n], a);
      assert [log[n]][1..] == [];
    }
  }

  /** What an indexer of the mapping events keeps; a removal that matches nothing changes nothing. */
  function ReplayMappings(m: Mappings, log: seq<PalletEvent>): (out: Mappings)
    decreases |log|
  {
    if log == [] then m
    else match log[0]
      case MappingAdded(entry) =>
        ReplayMappings(StoreEntries(m, entry.address, EntriesOf(m, entry.address) + [entry]), log[1..])
      case MappingRemoved(entry) =>
        ReplayMappings(StoreEntries(m, entry.address, RemoveFirst(EntriesOf(m, entry.address), entry)), log[1..])
      case _ => ReplayMappings(m, log[1..])
  }

  lemma {:induction false} ReplayMappingsConcat(m: Mappings, a: seq<PalletEvent>, b: seq<PalletEvent>)
    ensures ReplayMappings(m, a + b) == ReplayMappings(ReplayMappings(m, a), b)
    decreases |a|
  {
    if a == [] {
      assert a + b == b;
    } else {
      assert (a + b)[1..] == a[1..] + b;
      match a[0]
      case MappingAdded(entry) =>
        ReplayMappingsConcat(StoreEntries(m, entry.address, EntriesOf(m, entry.address) + [entry]), a[1..], b);
      case MappingRemoved(entry) =>
        ReplayMappingsConcat(StoreEntries(m, entry.address, RemoveFirst(EntriesOf(m, entry.address), entry)),
                             a[1..], b);
      case _ => ReplayMappingsConcat(m, a[1..], b);
    }
  }

  lemma SetEntriesReplaysMappings(s: Storage, a: Address, entries: seq<MappingEntry>, event: PalletEvent)
    requires event.MappingAdded? || event.MappingRemoved?
    requires event.entry.address == a
    requires entries == if event.MappingAdded? then EntriesOf(s.mappings, a) + [event.entry]
                        else RemoveFirst(EntriesOf(s.mappings, a), event.entry)
    ensures var e := SetEntries(s, a, entries, event);
            ReplayMappings(s.mappings, e.log) == e.storage.mappings
  {
    var m' := StoreEntries(s.mappings, a, entries);
    var t := Transition(a, GetRegistration(s.mappings, a), GetRegistration(m', a));
    assert ReplayMappings(s.mappings, t) == s.mappings by {
      if t != [] { assert t[1..] == []; }
    }
    assert ReplayMappings(s.mappings, [event]) == m' by {
      assert [event][1..] == [];
    }
    ReplayMappingsConcat(s.mappings, t, [event]);
  }

  lemma StepReplaysMappings(host: Host, s: Storage, u: ObservedUtxo)
    ensures var e := Step(host, s, u);
            ReplayMappings(s.mappings, e.log) == e.storage.mappings
  {
    if u.data.Register? || u.data.Deregister? {
      var a := u.data.address;
      var entry := EntryOf(u.header, a, u.data.key);
      if u.data.Register? {
        SetEntriesReplaysMappings(s, a, EntriesOf(s.mappings, a) + [entry], MappingAdded(entry));
      } else {
        SetEntriesReplaysMappings(s, a, RemoveFirst(EntriesOf(s.mappings, a), entry), MappingRemoved(entry));
      }
    }
  }

  /** The stored mapping lists are a function of the mapping events alone. */
  lemma {:induction false} RunReplaysMappings(host: Host, s: Storage, us: seq<ObservedUtxo>)
    ensures var e := Run(host, s, us);
            ReplayMappings(s.mappings, e.log) == e.storage.mappings
    decreases |us|
  {
    if us != [] {
      var first := Step(host, s, us[0]);
      StepReplaysMappings(host, s, us[0]);
      RunReplaysMappings(host, first.storage, us[1..]);
      ReplayMappingsConcat(s.mappings, first.log, Run(host, first.storage, us[1..]).log);
    }
  }
}

/** The append-only store of runbook versions (services/operator/internal/compiler/versioning.go). */
module Versioning {
  import opened Text
  import opened RunbookParser

  datatype VersionedEntry = VersionedEntry(version: int, name: string, raw: string, runbook: ParsedRunbook)

  datatype Call = Call(name: string, raw: string)

  datatype LookupError = NameNotFound | VersionNotFound

  /** The versions of a name after one more call. */
  function VersionsNext(earlier: seq<VersionedEntry>, c: Call, name: string): seq<VersionedEntry> {
    if c.name == name && Parse(c.raw).Ok?
    then earlier + [VersionedEntry(|earlier| + 1, name, c.raw, Parse(c.raw).value)]
    else earlier
  }

  /** The versions of a name after a sequence of Store calls: its accepted texts, numbered from 1. */
  function Versions(log: seq<Call>, name: string): seq<VersionedEntry> {
    if log == [] then [] else VersionsNext(Versions(log[..|log| - 1], name), log[|log| - 1], name)
  }

  lemma VersionsLast(log: seq<Call>, c: Call, name: string)
    ensures Versions(log + [c], name) == VersionsNext(Versions(log, name), c, name)
  {
    assert (log + [c])[..|log|] == log;
  }

  class VersionedStore {
    var entries: map<string, seq<VersionedEntry>>
    ghost var log: seq<Call>

    ghost predicate Valid()
      reads this
    {
      && (forall name :: name in entries ==> entries[name] == Versions(log, name) && entries[name] != [])
      && (forall name :: name !in entries ==> Versions(log, name) == [])
    }

    constructor ()
      ensures Valid() && log == []
    {
      entries := map[];
      log := [];
    }

    method Store(name: string, data: string) returns (r: Result<int, ParseError>)
      requires Valid()
      modifies this
      ensures Valid() && log == old(log) + [Call(name, data)]
      ensures r == match Parse(data) {
                     case Ok(_) => Ok(|Versions(old(log), name)| + 1)
                     case Err(e) => Err(e)
                   }
    {
      hide Parse, Versions;
      var parsed := ParseMarkdown(data);
      log := log + [Call(name, data)];
      forall n ensures Versions(log, n) == VersionsNext(Versions(old(log), n), Call(name, data), n) {
        VersionsLast(old(log), Call(name, data), n);
      }
      if parsed.Err? {
        return Err(parsed.error);
      }
      var versions := if name in entries then entries[name] else [];
      var newVersion := |versions| + 1;
      entries := entries[name := versions + [VersionedEntry(newVersion, name, data, parsed.value)]];
      return Ok(newVersion);
    }

    method Get(name: string, version: int) returns (r: Result<VersionedEntry, LookupError>)
      requires Valid()
      ensures r == (var vs := Versions(log, name);
                    if vs == [] then Err(NameNotFound)
                    else if 1 <= version <= |vs| then Ok(vs[version - 1])
                    else Err(VersionNotFound))
    {
      if name !in entries {
        return Err(NameNotFound);
      }
      var versions := entries[name];
      VersionsNumbered(log, name);
      for i := 0 to |versions|
        invariant forall k :: 0 <= k < i ==> versions[k].version != version
      {
        if versions[i].version == version {
          return Ok(versions[i]);
        }
      }
      assert 1 <= version <= |versions| ==> versions[version - 1].version == version;
      return Err(VersionNotFound);
    }

    method GetLatest(name: string) returns (r: Result<VersionedEntry, LookupError>)
      requires Valid()
      ensures r == (var vs := Versions(log, name); if vs == [] then Err(NameNotFound) else Ok(vs[|vs| - 1]))
    {
      if name !in entries || |entries[name]| == 0 {
        return Err(NameNotFound);
      }
      return Ok(entries[name][|entries[name]| - 1]);
    }

    method ListVersions(name: string) returns (result: seq<int>)
      requires Valid()
      ensures |result| == |Versions(log, name)| && forall i :: 0 <= i < |result| ==> result[i] == i + 1
    {
      var versions := if name in entries then entries[name] else [];
      VersionsNumbered(log, name);
      result := [];
      for i := 0 to |versions|
        invariant |result| == i && forall k :: 0 <= k < i ==> result[k] == k + 1
      {
        result := result + [versions[i].version];
      }
    }
  }

  /** What one call of Store leaves: an accepted text becomes the name's next version, as it was given; a refused
      one leaves no trace, and other names never see either. */
  lemma StoreKeepsText(log: seq<Call>, name: string, data: string, other: string)
    ensures Parse(data).Ok? ==>
      Versions(log + [Call(name, data)], name)
      == Versions(log, name) + [VersionedEntry(|Versions(log, name)| + 1, name, data, Parse(data).value)]
    ensures Parse(data).Err? || other != name ==> Versions(log + [Call(name, data)], other) == Versions(log, other)
  {
    VersionsLast(log, Call(name, data), name);
    VersionsLast(log, Call(name, data), other);
  }

  /** Versions are 1..n with no gap, and every entry holds the parse of its own text. */
  lemma {:induction false} VersionsNumbered(log: seq<Call>, name: string)
    ensures forall i :: 0 <= i < |Versions(log, name)| ==>
              var e := Versions(log, name)[i];
              e.version == i + 1 && e.name == name && Parse(e.raw) == Ok(e.runbook)
  {
    if log == [] {
    } else {
      VersionsNumbered(log[..|log| - 1], name);
    }
  }

  /** Whatever is stored later, every version stays what it was. */
  lemma {:induction false} VersionsKept(log: seq<Call>, more: seq<Call>, name: string)
    ensures Versions(log, name) <= Versions(log + more, name)
    ensures (forall c :: c in more ==> c.name != name || Parse(c.raw).Err?) ==>
              Versions(log + more, name) == Versions(log, name)
    decreases |more|
  {
    hide Parse;
    if more == [] {
      assert log + more == log;
    } else {
      var before, last := more[..|more| - 1], more[|more| - 1];
      assert more == before + [last] && last in more;
      assert log + more == (log + before) + [last];
      VersionsKept(log, before, name);
      VersionsLast(log + before, last, name);
    }
  }
}

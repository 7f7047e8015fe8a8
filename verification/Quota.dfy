// Quota definitions: a projection of persisted state, written through it.
module Quota {
  import opened Seqs

  datatype Definition = Definition(capability: string, principal: string, rssBytes: int, cpuSecs: real)

  datatype Usage = Usage(rssBytes: int, cpuSecs: real, complete: bool)

  const SEPARATOR := '\0'

  function Key(capability: string, principal: string): string {
    capability + [SEPARATOR] + principal
  }

  predicate Exceeded(def: Definition, u: Usage) {
    (def.rssBytes > 0 && u.rssBytes > def.rssBytes) || (def.cpuSecs > 0.0 && u.cpuSecs > def.cpuSecs)
  }

  // The definition that governs a pair: its own, else the capability-wide one.
  function Governing(defs: map<string, Definition>, capability: string, principal: string): Option<Definition> {
    if Key(capability, principal) in defs then Some(defs[Key(capability, principal)])
    else if Key(capability, "") in defs then Some(defs[Key(capability, "")])
    else None
  }

  class QuotaStore {
    var defs: map<string, Definition>
    // what persistence holds; a failed write leaves it alone
    var persisted: map<string, Definition>

    ghost predicate Valid()
      reads this
    {
      defs == persisted
    }

    constructor (loaded: map<string, Definition>)
      ensures Valid() && defs == loaded
    {
      defs, persisted := loaded, loaded;
    }

    method GetDefinition(capability: string, principal: string) returns (d: Option<Definition>)
      ensures d == Governing(defs, capability, principal)
    {
      if Key(capability, principal) in defs {
        return Some(defs[Key(capability, principal)]);
      }
      if Key(capability, "") in defs {
        return Some(defs[Key(capability, "")]);
      }
      return None;
    }

    method SetDefinition(d: Definition, writeOk: bool) returns (ok: bool)
      requires Valid()
      modifies this
      ensures Valid() && ok == writeOk
      ensures defs == if ok then old(defs)[Key(d.capability, d.principal) := d] else old(defs)
    {
      if !writeOk {
        return false;
      }
      persisted := persisted[Key(d.capability, d.principal) := d];
      defs := defs[Key(d.capability, d.principal) := d];
      return true;
    }

    method ClearDefinition(capability: string, principal: string, writeOk: bool) returns (ok: bool)
      requires Valid()
      modifies this
      ensures Valid() && ok == writeOk
      ensures defs == if ok then old(defs) - {Key(capability, principal)} else old(defs)
    {
      if !writeOk {
        return false;
      }
      persisted := persisted - {Key(capability, principal)};
      defs := defs - {Key(capability, principal)};
      return true;
    }
  }

  lemma KeysAreDistinct(c: string, p: string, d: string, q: string)
    requires SEPARATOR !in c && SEPARATOR !in d
    ensures Key(c, p) == Key(d, q) <==> c == d && p == q
  {
    if Key(c, p) == Key(d, q) {
      var s := Key(c, p);
      assert forall i :: 0 <= i < |c| ==> s[i] == c[i];
      assert forall i :: 0 <= i < |d| ==> s[i] == d[i];
      assert s[|c|] == SEPARATOR && s[|d|] == SEPARATOR;
      assert |c| == |d|;
      assert c == s[..|c|] && d == s[..|d|] && p == s[|c| + 1..] && q == s[|d| + 1..];
    }
  }

  // Clearing undoes setting for a pair that had no definition of its own, and what
  // governs any other principal of any capability changes only through the
  // capability-wide entry.
  lemma SetThenClear(defs: map<string, Definition>, d: Definition, c: string, p: string)
    requires SEPARATOR !in d.capability && SEPARATOR !in c
    ensures var k := Key(d.capability, d.principal);
      && (k !in defs ==> defs[k := d] - {k} == defs)
      && Governing(defs[k := d], d.capability, d.principal) == Some(d)
      && (Governing(defs[k := d], c, p) != Governing(defs, c, p) ==>
            c == d.capability && (p == d.principal || (d.principal == "" && Key(c, p) !in defs)))
  {
    KeysAreDistinct(c, p, d.capability, d.principal);
    KeysAreDistinct(c, "", d.capability, d.principal);
  }
}

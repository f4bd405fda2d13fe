/**
  The media store (pkg/media/store.go): entries by reference, and the two maps between
  references and scopes. New references, the clock, and whether a file exists are parameters;
  deleting a file is left to the caller, who gets the paths.
 */
module MediaStore {
  import opened Common

  datatype Entry = Entry(path: string, contentType: string, storedAt: int)

  /** The three maps. */
  datatype Maps = Maps(refs: map<string, Entry>, scopeToRefs: map<string, set<string>>, refToScope: map<string, string>)

  const EMPTY := Maps(map[], map[], map[])

  function RefsOf(m: Maps, scope: string): set<string> {
    if scope in m.scopeToRefs then m.scopeToRefs[scope] else {}
  }

  /** Exact inverses: every reference has one scope, which lists it, and no scope is listed in vain. */
  ghost predicate Inverse(m: Maps) {
    && m.refs.Keys == m.refToScope.Keys
    && (forall ref :: ref in m.refToScope ==> ref in RefsOf(m, m.refToScope[ref]))
    && (forall scope, ref :: scope in m.scopeToRefs && ref in m.scopeToRefs[scope] ==>
          ref in m.refToScope && m.refToScope[ref] == scope)
    && (forall scope :: scope in m.scopeToRefs ==> m.scopeToRefs[scope] != {})
  }

  /** The maps without some of their references. */
  ghost predicate IsWithout(m': Maps, m: Maps, gone: set<string>) {
    && m'.refs == m.refs - gone
    && m'.refToScope == m.refToScope - gone
    && forall scope :: RefsOf(m', scope) == RefsOf(m, scope) - gone
  }

  /** The paths of some references, each reference once. */
  ghost predicate ArePathsOf(paths: seq<string>, m: Maps, gone: set<string>, order: seq<string>) {
    && |paths| == |order| == |gone|
    && (forall ref :: ref in order <==> ref in gone)
    && forall i :: 0 <= i < |order| ==> order[i] in m.refs && paths[i] == m.refs[order[i]].path
  }

  predicate Expired(e: Entry, cutoff: int) {
    e.storedAt < cutoff
  }

  ghost function ExpiredRefs(m: Maps, cutoff: int): set<string> {
    set ref | ref in m.refs && Expired(m.refs[ref], cutoff)
  }

  lemma StoreKeepsInverse(m: Maps, ref: string, entry: Entry, scope: string)
    requires Inverse(m) && ref !in m.refs
    ensures Inverse(Maps(m.refs[ref := entry], m.scopeToRefs[scope := RefsOf(m, scope) + {ref}], m.refToScope[ref := scope]))
  {
  }

  /** Taking references out keeps the maps inverse, if no empty scope is left behind. */
  lemma WithoutKeepsInverse(m: Maps, m': Maps, gone: set<string>)
    requires Inverse(m) && IsWithout(m', m, gone)
    requires forall scope :: scope in m'.scopeToRefs ==> m'.scopeToRefs[scope] != {}
    ensures Inverse(m')
  {
    forall scope, ref | scope in m'.scopeToRefs && ref in m'.scopeToRefs[scope]
      ensures ref in m'.refToScope && m'.refToScope[ref] == scope
    {
      assert ref in RefsOf(m', scope) && ref in RefsOf(m, scope);
    }
    forall ref | ref in m'.refToScope ensures ref in RefsOf(m', m'.refToScope[ref]) {
      assert ref in RefsOf(m, m.refToScope[ref]);
    }
  }

  /** Taking one reference out after others takes them all out. */
  lemma WithoutTwice(m: Maps, m1: Maps, m2: Maps, gone: set<string>, ref: string)
    requires IsWithout(m1, m, gone) && IsWithout(m2, m1, {ref})
    ensures IsWithout(m2, m, gone + {ref})
  {
    forall scope ensures RefsOf(m2, scope) == RefsOf(m, scope) - (gone + {ref}) {
      assert RefsOf(m2, scope) == RefsOf(m1, scope) - {ref};
      assert RefsOf(m1, scope) == RefsOf(m, scope) - gone;
    }
  }

  /** Dropping a scope whole takes its references from no other scope. */
  lemma DropScope(m: Maps, m': Maps, scope: string)
    requires Inverse(m)
    requires m'.refs == m.refs - RefsOf(m, scope) && m'.refToScope == m.refToScope - RefsOf(m, scope)
    requires m'.scopeToRefs == m.scopeToRefs - {scope}
    ensures IsWithout(m', m, RefsOf(m, scope)) && Inverse(m')
  {
    forall s ensures RefsOf(m', s) == RefsOf(m, s) - RefsOf(m, scope) {
      if s != scope {
        assert forall ref :: ref in RefsOf(m, s) ==> m.refToScope[ref] == s;
        assert forall ref :: ref in RefsOf(m, scope) ==> m.refToScope[ref] == scope;
      }
    }
    WithoutKeepsInverse(m, m', RefsOf(m, scope));
  }

  /** Taking a reference from its own scope takes it from every scope. */
  lemma DropRef(m: Maps, m': Maps, ref: string, scope: string)
    requires Inverse(m) && ref in m.refToScope && scope == m.refToScope[ref]
    requires m'.refs == m.refs - {ref} && m'.refToScope == m.refToScope - {ref}
    requires var left := RefsOf(m, scope) - {ref};
             m'.scopeToRefs == if left == {} then m.scopeToRefs - {scope} else m.scopeToRefs[scope := left]
    ensures IsWithout(m', m, {ref}) && Inverse(m')
  {
    forall s ensures RefsOf(m', s) == RefsOf(m, s) - {ref} {
      if s != scope && s in m.scopeToRefs {
        assert ref !in m.scopeToRefs[s];
      }
    }
    WithoutKeepsInverse(m, m', {ref});
  }

  lemma NothingGone(m: Maps)
    ensures IsWithout(m, m, {}) && ArePathsOf([], m, {}, [])
  {
  }

  lemma ScopeIsKnown(m: Maps, scope: string)
    requires Inverse(m)
    ensures RefsOf(m, scope) <= m.refs.Keys
  {
  }

  /** One more reference, one more path. */
  lemma OneMorePath(paths: seq<string>, m: Maps, gone: set<string>, order: seq<string>, ref: string)
    requires ArePathsOf(paths, m, gone, order) && ref in m.refs && ref !in gone
    ensures ArePathsOf(paths + [m.refs[ref].path], m, gone + {ref}, order + [ref])
  {
    var order' := order + [ref];
    forall r ensures r in order' <==> r in gone + {ref} {
      assert r in order' <==> r in order || r == ref;
    }
  }

  /** One more reference out of the two maps keyed by references. */
  lemma OneMoreGone<V>(now: map<string, V>, before: map<string, V>, gone: set<string>, ref: string)
    requires now == before - gone
    ensures now - {ref} == before - (gone + {ref})
  {
  }

  /** The references a cleanup has looked at so far, and which of them it removed. */
  ghost predicate Swept(m: Maps, todo: set<string>, gone: set<string>, cutoff: int) {
    && todo !! gone && todo <= m.refs.Keys && gone <= m.refs.Keys
    && forall ref :: ref in m.refs && ref !in todo ==> (ref in gone <==> Expired(m.refs[ref], cutoff))
  }

  lemma NothingSwept(m: Maps, cutoff: int)
    ensures Swept(m, m.refs.Keys, {}, cutoff)
  {
  }

  /** The next reference is still there unchanged, and is swept by removing it exactly if it has expired. */
  lemma SweepNext(now: Maps, m: Maps, todo: set<string>, gone: set<string>, cutoff: int, ref: string)
    requires Swept(m, todo, gone, cutoff) && IsWithout(now, m, gone) && ref in todo
    ensures ref in now.refs && ref in m.refs && now.refs[ref] == m.refs[ref] && ref !in gone
    ensures Swept(m, todo - {ref}, if Expired(m.refs[ref], cutoff) then gone + {ref} else gone, cutoff)
  {
  }

  lemma KeptAre(now: Maps, m: Maps, gone: set<string>)
    requires IsWithout(now, m, gone)
    ensures forall ref :: ref in now.refs <==> ref in m.refs && ref !in gone
  {
  }

  lemma ExpiredAre(m: Maps, now: int, maxAge: int)
    ensures forall ref :: ref in ExpiredRefs(m, now - maxAge) <==> ref in m.refs && maxAge < now - m.refs[ref].storedAt
  {
  }

  lemma SweptAll(m: Maps, gone: set<string>, cutoff: int)
    requires Swept(m, {}, gone, cutoff)
    ensures gone == ExpiredRefs(m, cutoff)
  {
  }

  class FileMediaStore {
    var refs: map<string, Entry>
    var scopeToRefs: map<string, set<string>>
    var refToScope: map<string, string>
    const maxAge: int

    constructor (maxAge: int)
      ensures Contents() == EMPTY && Inverse(Contents()) && this.maxAge == maxAge
    {
      refs, scopeToRefs, refToScope := map[], map[], map[];
      this.maxAge := maxAge;
    }

    function Contents(): Maps
      reads this
    {
      Maps(refs, scopeToRefs, refToScope)
    }

    /** Records a file that exists under a new reference. */
    method Store(entry: Entry, scope: string, onDisk: bool, ref: string) returns (ok: bool)
      requires Inverse(Contents()) && ref !in refs
      modifies this
      ensures Inverse(Contents()) && ok == onDisk
      ensures !ok ==> Contents() == old(Contents())
      ensures ok ==> refs == old(refs)[ref := entry] && refToScope == old(refToScope)[ref := scope]
      ensures ok ==> forall s :: RefsOf(Contents(), s) == RefsOf(old(Contents()), s) + if s == scope then {ref} else {}
    {
      if !onDisk {
        return false;
      }
      StoreKeepsInverse(Contents(), ref, entry, scope);
      refs := refs[ref := entry];
      if scope !in scopeToRefs {
        scopeToRefs := scopeToRefs[scope := {}];
      }
      scopeToRefs := scopeToRefs[scope := scopeToRefs[scope] + {ref}];
      refToScope := refToScope[ref := scope];
      assert scopeToRefs == old(scopeToRefs)[scope := RefsOf(old(Contents()), scope) + {ref}];
      return true;
    }

    method Resolve(ref: string) returns (path: Option<string>)
      ensures path == if ref in refs then Some(refs[ref].path) else None
    {
      if ref !in refs {
        return None;
      }
      return Some(refs[ref].path);
    }

    /** Removes exactly the references of a scope and collects exactly their paths. */
    method ReleaseAll(scope: string) returns (paths: seq<string>, ghost order: seq<string>)
      requires Inverse(Contents())
      modifies this
      ensures Inverse(Contents()) && scope !in scopeToRefs
      ensures IsWithout(Contents(), old(Contents()), RefsOf(old(Contents()), scope))
      ensures ArePathsOf(paths, old(Contents()), RefsOf(old(Contents()), scope), order)
    {
      hide Inverse, IsWithout, ArePathsOf;
      ghost var m := Contents();
      paths, order := [], [];
      ghost var gone: set<string> := {};
      NothingGone(m);
      if scope !in scopeToRefs {
        return;
      }
      var todo := scopeToRefs[scope];
      ScopeIsKnown(m, scope);
      while todo != {}
        invariant todo + gone == RefsOf(m, scope) && todo !! gone && scopeToRefs == m.scopeToRefs
        invariant refs == m.refs - gone && refToScope == m.refToScope - gone
        invariant ArePathsOf(paths, m, gone, order)
        decreases todo
      {
        var ref :| ref in todo;
        OneMorePath(paths, m, gone, order, ref);
        OneMoreGone(refs, m.refs, gone, ref);
        OneMoreGone(refToScope, m.refToScope, gone, ref);
        if ref in refs {
          paths := paths + [refs[ref].path];
          order := order + [ref];
        }
        refs := refs - {ref};
        refToScope := refToScope - {ref};
        todo := todo - {ref};
        gone := gone + {ref};
      }
      scopeToRefs := scopeToRefs - {scope};
      DropScope(m, Contents(), scope);
    }

    /** The removal of one expired reference, and of its scope when that was the last one in it. */
    method RemoveRef(ref: string)
      requires Inverse(Contents()) && ref in refs
      modifies this
      ensures Inverse(Contents()) && IsWithout(Contents(), old(Contents()), {ref})
    {
      if ref in refToScope {
        var scope := refToScope[ref];
        if scope in scopeToRefs {
          var scopeRefs := scopeToRefs[scope] - {ref};
          scopeToRefs := scopeToRefs[scope := scopeRefs];
          if scopeRefs == {} {
            scopeToRefs := scopeToRefs - {scope};
          }
        }
      }
      refs := refs - {ref};
      refToScope := refToScope - {ref};
      DropRef(old(Contents()), Contents(), ref, old(refToScope)[ref]);
    }

    /** Removes exactly the expired references, leaves no empty scope, and collects exactly their paths. */
    method CleanExpired(now: int) returns (count: nat, paths: seq<string>, ghost order: seq<string>)
      requires Inverse(Contents())
      modifies this
      ensures Inverse(Contents())
      ensures var gone := if maxAge <= 0 then {} else ExpiredRefs(old(Contents()), now - maxAge);
              && IsWithout(Contents(), old(Contents()), gone)
              && ArePathsOf(paths, old(Contents()), gone, order)
              && count == |gone|
      ensures forall ref :: ref in refs <==>
                ref in old(refs) && (maxAge <= 0 || now - old(refs)[ref].storedAt <= maxAge)
    {
      hide Inverse, IsWithout, ArePathsOf, Swept, ExpiredRefs;
      ghost var m := Contents();
      count, paths, order := 0, [], [];
      ghost var gone: set<string> := {};
      NothingGone(m);
      if maxAge <= 0 {
        KeptAre(Contents(), m, {});
        return;
      }
      var cutoff := now - maxAge;
      var todo := refs.Keys;
      NothingSwept(m, cutoff);
      while todo != {}
        invariant Inverse(Contents()) && IsWithout(Contents(), m, gone)
        invariant Swept(m, todo, gone, cutoff) && count == |gone|
        invariant ArePathsOf(paths, m, gone, order)
        decreases todo
      {
        var ref :| ref in todo;
        SweepNext(Contents(), m, todo, gone, cutoff, ref);
        var entry := refs[ref];
        todo := todo - {ref};
        if entry.storedAt < cutoff {
          paths := paths + [entry.path];
          order := order + [ref];
          ghost var before := Contents();
          OneMorePath(paths[..|paths| - 1], m, gone, order[..|order| - 1], ref);
          RemoveRef(ref);
          WithoutTwice(m, before, Contents(), gone, ref);
          gone := gone + {ref};
          count := count + 1;
        }
      }
      SweptAll(m, gone, cutoff);
      KeptAre(Contents(), m, gone);
      ExpiredAre(m, now, maxAge);
    }
  }
}

/** The profile registry `state.json` of src/profile/store.rs. */
module ProfileRegistry {
  import opened Options
  import opened QuotaCache

  datatype Registry = Registry(
    profiles: seq<string>,
    directories: map<string, string>,
    cooldowns: map<string, real>,
    lastSelected: Option<string>)

  function DirectoryOf(r: Registry, name: string): string {
    if name in r.directories then r.directories[name] else name
  }

  /** No name twice, and no directory for two names. */
  predicate Apart(r: Registry, profiles: seq<string>) {
    forall i, j | 0 <= i < j < |profiles| ::
      profiles[i] != profiles[j] && DirectoryOf(r, profiles[i]) != DirectoryOf(r, profiles[j])
  }

  /** `validate_state`: what every read and every write of the registry insists on. */
  predicate ValidRegistry(r: Registry) {
    && Apart(r, r.profiles)
    && (forall n <- r.directories :: n in r.profiles)
    && (r.lastSelected.Some? ==> r.lastSelected.value in r.profiles)
    && (forall n <- r.cooldowns :: n in r.profiles && ValidTime(r.cooldowns[n]))
  }

  function Retained(profiles: seq<string>, name: string): seq<string> {
    if profiles == [] then []
    else Retained(profiles[..|profiles| - 1], name)
         + (if profiles[|profiles| - 1] == name then [] else [profiles[|profiles| - 1]])
  }

  function Unregistered(r: Registry, name: string): Registry {
    if name !in r.profiles then r
    else Registry(Retained(r.profiles, name), r.directories - {name}, r.cooldowns - {name},
                  if r.lastSelected == Some(name) then None else r.lastSelected)
  }

  lemma {:induction false} RetainedIs(profiles: seq<string>, name: string)
    ensures forall n :: n in Retained(profiles, name) <==> n in profiles && n != name
    ensures name !in profiles ==> Retained(profiles, name) == profiles
  {
    if profiles != [] {
      RetainedIs(profiles[..|profiles| - 1], name);
      assert profiles == profiles[..|profiles| - 1] + [profiles[|profiles| - 1]];
    }
  }

  /** Two accounts never share a directory. */
  lemma DirectoriesDiffer(r: Registry, a: string, b: string)
    requires ValidRegistry(r) && a in r.profiles && b in r.profiles && a != b
    ensures DirectoryOf(r, a) != DirectoryOf(r, b)
  {
    var i :| 0 <= i < |r.profiles| && r.profiles[i] == a;
    var j :| 0 <= j < |r.profiles| && r.profiles[j] == b;
    assert i < j ==> DirectoryOf(r, r.profiles[i]) != DirectoryOf(r, r.profiles[j]);
  }

  lemma ApartWith(r: Registry, profiles: seq<string>, name: string)
    requires Apart(r, profiles)
    requires forall n <- profiles :: n != name && DirectoryOf(r, n) != DirectoryOf(r, name)
    ensures Apart(r, profiles + [name])
  {
    assert forall i | 0 <= i < |profiles| :: profiles[i] in profiles;
  }

  lemma {:induction false} RetainedApart(r: Registry, profiles: seq<string>, name: string)
    requires Apart(r, profiles)
    ensures Apart(r, Retained(profiles, name))
  {
    if profiles != [] {
      var n := |profiles| - 1;
      RetainedApart(r, profiles[..n], name);
      RetainedIs(profiles[..n], name);
      forall x | x in Retained(profiles[..n], name)
        ensures x != profiles[n] && DirectoryOf(r, x) != DirectoryOf(r, profiles[n])
      {
        var k :| 0 <= k < n && profiles[k] == x;
      }
      ApartWith(r, Retained(profiles[..n], name), profiles[n]);
    }
  }

  /** Unregistering keeps the registry valid, so the write at the end of a removal is never rejected. */
  lemma UnregisteredIsValid(r: Registry, name: string)
    requires ValidRegistry(r)
    ensures ValidRegistry(Unregistered(r, name))
  {
    var after := Unregistered(r, name);
    RetainedIs(r.profiles, name);
    RetainedApart(r, r.profiles, name);
    forall i, j | 0 <= i < j < |after.profiles|
      ensures DirectoryOf(after, after.profiles[i]) != DirectoryOf(after, after.profiles[j])
    {
      assert after.profiles[i] in after.profiles && after.profiles[j] in after.profiles;
    }
  }

  /** Nothing the registry says about another account differs, nor the order of the others. */
  ghost predicate SameOthers(r: Registry, r': Registry, name: string) {
    && Retained(r'.profiles, name) == Retained(r.profiles, name)
    && (forall n | n != name ::
          && (n in r'.profiles <==> n in r.profiles)
          && Lookup(r'.directories, n) == Lookup(r.directories, n)
          && Lookup(r'.cooldowns, n) == Lookup(r.cooldowns, n)
          && (r'.lastSelected == Some(n) <==> r.lastSelected == Some(n)))
  }

  lemma OthersKeepDirectories(r: Registry, name: string, n: string)
    requires n != name
    ensures DirectoryOf(Unregistered(r, name), n) == DirectoryOf(r, n)
  {
  }

  /** The registry has no trace of the name. */
  predicate Forgotten(r: Registry, name: string) {
    && name !in r.profiles && name !in r.directories && name !in r.cooldowns && r.lastSelected != Some(name)
  }

  lemma UnregisteredIsForgotten(r: Registry, name: string)
    requires ValidRegistry(r)
    ensures Forgotten(Unregistered(r, name), name)
  {
    RetainedIs(r.profiles, name);
  }

  lemma OthersRegistered(r: Registry, name: string)
    ensures SameOthers(r, Unregistered(r, name), name)
  {
    RetainedIs(r.profiles, name);
    RetainedIs(Retained(r.profiles, name), name);
  }

  lemma UnregisteredTwice(r: Registry, name: string)
    ensures Unregistered(Unregistered(r, name), name) == Unregistered(r, name)
    ensures forall n :: n in Unregistered(r, name).profiles <==> n in r.profiles && n != name
  {
    RetainedIs(r.profiles, name);
  }

  /** A registry that can be read says nothing of a profile that is not registered, and its cooldowns are times. */
  lemma OnlyRegistered(r: Registry)
    requires ValidRegistry(r)
    ensures forall i, j | 0 <= i < j < |r.profiles| :: r.profiles[i] != r.profiles[j]
    ensures forall n | n in r.directories || n in r.cooldowns || r.lastSelected == Some(n) :: n in r.profiles
    ensures forall n <- r.cooldowns :: 0.0 <= r.cooldowns[n] < 1000000000000.0
  {
  }

  /** Where a profile lies: in its own directory, unless the registry names another. */
  lemma DirectoryIs(r: Registry, name: string)
    ensures Lookup(r.directories, name).UnwrapOr(name) == DirectoryOf(r, name)
  {
  }

  /** A registry without a word on directories and cooldowns is valid if its names are distinct. */
  lemma PlainRegistries(profiles: seq<string>)
    ensures ValidRegistry(Registry(profiles, map[], map[], None)) <==>
              forall i, j | 0 <= i < j < |profiles| :: profiles[i] != profiles[j]
  {
  }
}

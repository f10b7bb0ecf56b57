/** The fixed data HabitTracker sets up in its constructor: the pillars with their
    activities and response domains, and the log file of each pillar. None of it
    changes after construction, so it is modelled as constants. */
module Catalog {

  datatype Option<T> = None | Some(value: T)

  /** What an activity accepts: a bounded list of positive options (an answer of 0
      meaning "not done" is always allowed as well), or the "commits" sentinel,
      a free commit count. */
  datatype Domain = Bounded(options: seq<nat>) | Commits

  datatype Activity = Activity(name: string, domain: Domain)

  datatype Pillar = Pillar(name: string, activities: seq<Activity>)

  /** self.activities, in its insertion order. */
  const Pillars: seq<Pillar> := [
    Pillar("AIEngineer", [
      Activity("Grokking ML", Bounded([30, 60])),
      Activity("Fast.ai DL", Bounded([30, 60]))]),
    Pillar("Health", [
      Activity("Walking", Bounded([30, 60, 90])),
      Activity("Meditation", Bounded([1, 2])),
      Activity("Sleeping", Bounded([4, 6, 8])),
      Activity("Napping", Bounded([20, 90]))]),
    Pillar("Home", [
      Activity("Cooking", Bounded([30, 60, 90])),
      Activity("Cleanup", Bounded([30, 60, 90]))]),
    Pillar("Leisure", [
      Activity("TV Binging", Bounded([60, 90, 120, 360])),
      Activity("Reading Non-Fiction", Bounded([30, 60, 90])),
      Activity("Painting", Bounded([20, 30, 40])),
      Activity("Journaling", Bounded([10, 20, 30]))]),
    Pillar("Community", [
      Activity("Blogging", Bounded([20, 30, 40])),
      Activity("Github Streak", Commits)])
  ]

  /** self.pillar_files, in its insertion order: each pillar's log file, as a path
      relative to the directory that holds the program. */
  const PillarFiles: seq<(string, string)> := [
    ("AIEngineer", "data/AIEngineer.txt"),
    ("Health", "data/Health.txt"),
    ("Home", "data/Home.txt"),
    ("Leisure", "data/Leisure.txt"),
    ("Community", "data/Community.txt")
  ]

  /** The keys of an association list, in order. */
  function Keys<V>(entries: seq<(string, V)>): (ks: seq<string>)
    ensures |ks| == |entries|
    ensures forall i :: 0 <= i < |entries| ==> ks[i] == entries[i].0
    decreases |entries|
  {
    if entries == [] then [] else [entries[0].0] + Keys(entries[1..])
  }

  /** No key occurs twice: what makes an association list a dictionary. */
  predicate DistinctKeys<V>(entries: seq<(string, V)>) {
    forall i, j :: 0 <= i < j < |entries| ==> entries[i].0 != entries[j].0
  }

  /** Dictionary lookup by key. */
  function Lookup<V>(entries: seq<(string, V)>, key: string): Option<V>
    decreases |entries|
  {
    if entries == [] then None
    else if entries[0].0 == key then Some(entries[0].1)
    else Lookup(entries[1..], key)
  }

  /** A lookup fails exactly when no entry has the key, and otherwise yields the
      value of the first entry with that key. */
  lemma {:induction false} LookupSpec<V>(entries: seq<(string, V)>, key: string)
    ensures Lookup(entries, key).None? <==> forall i :: 0 <= i < |entries| ==> entries[i].0 != key
    ensures Lookup(entries, key).Some? ==>
      exists i :: 0 <= i < |entries| && entries[i] == (key, Lookup(entries, key).value)
                  && forall j :: 0 <= j < i ==> entries[j].0 != key
    decreases |entries|
  {
    if entries != [] && entries[0].0 != key {
      LookupSpec(entries[1..], key);
      if Lookup(entries, key).Some? {
        var i :| 0 <= i < |entries[1..]| && entries[1..][i] == (key, Lookup(entries, key).value)
                 && forall j :: 0 <= j < i ==> entries[1..][j].0 != key;
        assert entries[i + 1] == entries[1..][i];
        assert forall j :: 1 <= j < i + 1 ==> entries[j] == entries[1..][j - 1];
      }
      forall i | 0 <= i < |entries| && entries[i].0 == key ensures Lookup(entries, key).Some? {
        assert entries[1..][i - 1] == entries[i];
      }
    }
  }

  /** In a dictionary, looking up an entry's key gives that entry's value. */
  lemma LookupAt<V>(entries: seq<(string, V)>, i: nat)
    requires DistinctKeys(entries) && i < |entries|
    ensures Lookup(entries, entries[i].0) == Some(entries[i].1)
  {
    LookupSpec(entries, entries[i].0);
    var j :| 0 <= j < |entries| && entries[j] == (entries[i].0, Lookup(entries, entries[i].0).value);
  }

  /** self.pillar_files[pillar]; None where Python raises KeyError. */
  function FileOf(pillar: string): Option<string> {
    Lookup(PillarFiles, pillar)
  }

  /** All activities of the given pillars, pillar by pillar, in order. */
  function Flatten(pillars: seq<Pillar>): (acts: seq<Activity>)
    decreases |pillars|
  {
    if pillars == [] then [] else pillars[0].activities + Flatten(pillars[1..])
  }

  /** The shape of the catalog: five pillars stored in the same order as the pillar
      files, fourteen activities, AIEngineer's first and Community's last. */
  lemma CatalogShape()
    ensures |Pillars| == |PillarFiles| == 5
    ensures forall i :: 0 <= i < 5 ==> Pillars[i].name == PillarFiles[i].0
    ensures DistinctKeys(PillarFiles)
    ensures |Flatten(Pillars)| == 14
    ensures Flatten(Pillars)[0] == Pillars[0].activities[0] && Pillars[0].name == "AIEngineer"
    ensures Flatten(Pillars)[13] == Pillars[4].activities[1] && Pillars[4].name == "Community"
  {
    assert Flatten(Pillars) == Pillars[0].activities + Pillars[1].activities + Pillars[2].activities
      + Pillars[3].activities + Pillars[4].activities;
  }

  /** Every bounded option of the catalog is a positive number, and only the
      Github Streak activity takes a commit count. */
  lemma OptionsPositive()
    ensures forall i, j :: 0 <= i < |Pillars| && 0 <= j < |Pillars[i].activities| ==>
      match Pillars[i].activities[j].domain
      case Bounded(options) => forall k :: 0 <= k < |options| ==> options[k] > 0
      case Commits => Pillars[i].activities[j].name == "Github Streak"
  {
  }

  /** Each pillar has its own file: no two pillars share a path. */
  lemma FilesDistinct(p: string, q: string)
    requires FileOf(p).Some? && FileOf(q).Some? && FileOf(p) == FileOf(q)
    ensures p == q
  {
  }
}

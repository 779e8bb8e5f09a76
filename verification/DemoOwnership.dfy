/** The record of what the demo script itself created: two lists of ids, kept as one JSON setting
    between its runs.  A damaged record must never make a row look owned. */
module DemoOwnership {
  import opened Basics

  datatype Json =
    | Null
    | Bool(b: bool)
    | Number(i: int)
    | Fraction(r: real)
    | Text(s: string)
    | List(items: seq<Json>)
    | Object(fields: map<string, Json>)

  /** The text of the setting: JSON, or something that does not parse. */
  datatype Stored = Parses(value: Json) | Damaged

  datatype Owned = Owned(repoIds: seq<int>, roadmapIds: seq<int>)

  /** The whole numbers of a list; true and false are not among them. */
  function Ints(items: seq<Json>): seq<int> {
    if items == [] then [] else (if items[0].Number? then [items[0].i] else []) + Ints(items[1..])
  }

  function Fields(setting: Option<Stored>): map<string, Json> {
    if setting.Some? && setting.value.Parses? && setting.value.value.Object? then setting.value.value.fields else map[]
  }

  function IdsUnder(fields: map<string, Json>, key: string): seq<int> {
    if key in fields && fields[key].List? then Ints(fields[key].items) else []
  }

  function Loaded(setting: Option<Stored>): Owned {
    Owned(IdsUnder(Fields(setting), "repo_ids"), IdsUnder(Fields(setting), "roadmap_ids"))
  }

  function Numbers(ids: seq<int>): seq<Json> {
    if ids == [] then [] else [Number(ids[0])] + Numbers(ids[1..])
  }

  function Record(owned: Owned): Stored {
    Parses(Object(map["repo_ids" := List(Numbers(owned.repoIds)), "roadmap_ids" := List(Numbers(owned.roadmapIds))]))
  }

  class Ledger {
    var setting: Option<Stored>

    method Load() returns (owned: Owned)
      ensures owned == Loaded(setting)
    {
      if setting.None? { return Owned([], []); }
      var fields := map[];
      if setting.value.Parses? && setting.value.value.Object? {
        fields := setting.value.value.fields;
      }
      var repoIds := KeepInts(fields, "repo_ids");
      var roadmapIds := KeepInts(fields, "roadmap_ids");
      return Owned(repoIds, roadmapIds);
    }

    method KeepInts(fields: map<string, Json>, key: string) returns (ids: seq<int>)
      ensures ids == IdsUnder(fields, key)
    {
      ids := [];
      if key in fields && fields[key].List? {
        var values := fields[key].items;
        assert values[0..] == values;
        for i := 0 to |values|
          invariant ids + Ints(values[i..]) == Ints(values)
        {
          assert values[i..][1..] == values[i + 1..];
          if values[i].Number? {
            ids := ids + [values[i].i];
          }
        }
      }
    }

    /** With nothing owned the setting is deleted; otherwise whatever was there is replaced. */
    method Save(owned: Owned)
      modifies this
      ensures Loaded(setting) == owned
      ensures setting.None? <==> owned == Owned([], [])
    {
      SaveThenLoad(owned);
      if owned.repoIds == [] && owned.roadmapIds == [] {
        setting := None;
      } else {
        setting := Some(Record(owned));
      }
    }
  }

  lemma {:induction false} IntsOfNumbers(ids: seq<int>)
    ensures Ints(Numbers(ids)) == ids
  {
    if ids == [] {
    } else {
      IntsOfNumbers(ids[1..]);
    }
  }

  /** What is recorded is what the next run reads. */
  lemma SaveThenLoad(owned: Owned)
    ensures Loaded(Some(Record(owned))) == owned
  {
    IntsOfNumbers(owned.repoIds);
    IntsOfNumbers(owned.roadmapIds);
  }

  /** The record literally lists this id, as a whole number, under this key. */
  ghost predicate Listed(setting: Option<Stored>, key: string, id: int) {
    && setting.Some? && setting.value.Parses? && setting.value.value.Object?
    && key in setting.value.value.fields && setting.value.value.fields[key].List?
    && Number(id) in setting.value.value.fields[key].items
  }

  lemma {:induction false} IntsMeaning(items: seq<Json>, id: int)
    ensures id in Ints(items) <==> Number(id) in items
  {
    if items == [] {
    } else {
      IntsMeaning(items[1..], id);
      assert items == [items[0]] + items[1..];
    }
  }

  /** Whatever the setting holds, a repo or roadmap is owned exactly when it is listed. */
  lemma OwnedExactly(setting: Option<Stored>, id: int)
    ensures id in Loaded(setting).repoIds <==> Listed(setting, "repo_ids", id)
    ensures id in Loaded(setting).roadmapIds <==> Listed(setting, "roadmap_ids", id)
  {
    var fields := Fields(setting);
    if "repo_ids" in fields && fields["repo_ids"].List? { IntsMeaning(fields["repo_ids"].items, id); }
    if "roadmap_ids" in fields && fields["roadmap_ids"].List? { IntsMeaning(fields["roadmap_ids"].items, id); }
  }
}

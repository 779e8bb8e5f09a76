/** Choosing the folder of a demo project: never one that is registered, never through a
    symbolic link, and files are only written into a folder that was just created. */
module DemoFolders {
  import opened Basics

  const DEMO_CREATOR := "demo-seed"

  /** What is at a name in the (resolved) workspace folder. `marker` is the text of the marker file. */
  datatype Entry =
    | Folder(marker: Option<string>, files: map<string, string>)
    | Symlink
    | PlainFile

  function Digit(d: nat): (c: char)
    requires d < 10
  {
    "0123456789"[d]
  }

  function Decimal(n: nat): (s: string)
    ensures s != []
  {
    (if n < 10 then [] else Decimal(n / 10)) + [Digit(n % 10)]
  }

  lemma {:induction false} DecimalInjective(m: nat, n: nat)
    requires Decimal(m) == Decimal(n)
    ensures m == n
  {
    var a, b := if m < 10 then [] else Decimal(m / 10), if n < 10 then [] else Decimal(n / 10);
    assert Decimal(m)[..|Decimal(m)| - 1] == a && Decimal(n)[..|Decimal(n)| - 1] == b;
    assert Decimal(m)[|a|] == Digit(m % 10) && Decimal(n)[|b|] == Digit(n % 10);
    if m >= 10 && n >= 10 {
      DecimalInjective(m / 10, n / 10);
    }
  }

  function NameOf(folder: string, suffix: nat): string {
    folder + if suffix == 0 then "" else "-demo-" + Decimal(suffix)
  }

  lemma NamesDiffer(folder: string, i: nat, j: nat)
    requires NameOf(folder, i) == NameOf(folder, j)
    ensures i == j
  {
    assert NameOf(folder, i)[|folder|..] == if i == 0 then "" else "-demo-" + Decimal(i);
    assert NameOf(folder, j)[|folder|..] == if j == 0 then "" else "-demo-" + Decimal(j);
    if i != 0 && j != 0 {
      assert ("-demo-" + Decimal(i))[6..] == Decimal(i) && ("-demo-" + Decimal(j))[6..] == Decimal(j);
      DecimalInjective(i, j);
    }
  }

  type Entries = map<string, Entry>

  predicate Reusable(entries: Entries, name: string) {
    name in entries && entries[name].Folder? && entries[name].marker == Some(DEMO_CREATOR)
  }

  /** A name the search passes over. */
  predicate PassedOver(entries: Entries, registered: set<string>, name: string) {
    name in registered || (name in entries && !Reusable(entries, name))
  }

  /** The names tried are all different, so a finite set of taken names has a free one after it. */
  lemma {:induction false} NamesTried(folder: string, k: nat, taken: set<string>) returns (tried: set<string>)
    requires forall j :: 0 <= j < k ==> NameOf(folder, j) in taken
    ensures tried <= taken && |tried| == k <= |taken|
    ensures forall x :: x in tried ==> exists j :: 0 <= j < k && x == NameOf(folder, j)
  {
    tried := {};
    if k == 0 {
    } else {
      tried := NamesTried(folder, k - 1, taken);
      forall j | 0 <= j < k - 1 ensures NameOf(folder, j) != NameOf(folder, k - 1) {
        if NameOf(folder, j) == NameOf(folder, k - 1) { NamesDiffer(folder, j, k - 1); }
      }
      tried := tried + {NameOf(folder, k - 1)};
      SubsetSize(tried, taken);
    }
  }

  class Workspace {
    var entries: Entries

    constructor (found: Entries)
      ensures entries == found
    {
      entries := found;
    }

    /** `registered` are the names whose folder some repo or project has registered. */
    method MakeFolder(folder: string, files: map<string, string>, registered: set<string>) returns (name: string, ghost suffix: nat)
      modifies this
      ensures name == NameOf(folder, suffix) && !PassedOver(old(entries), registered, name)
      ensures forall j :: 0 <= j < suffix ==> PassedOver(old(entries), registered, NameOf(folder, j))
      ensures name in old(entries) ==> Reusable(old(entries), name) && entries == old(entries)
      ensures name !in old(entries) ==> entries == old(entries)[name := Folder(Some(DEMO_CREATOR), files)]
    {
      var k := 0;
      ghost var taken := entries.Keys + registered;
      while true
        invariant entries == old(entries)
        invariant forall j :: 0 <= j < k ==> PassedOver(entries, registered, NameOf(folder, j))
        decreases |taken| - k
      {
        name := NameOf(folder, k);
        if name !in registered && (name !in entries || !entries[name].Symlink?) {
          if name !in entries {
            entries := entries[name := Folder(None, map[])];
            break;
          }
          if entries[name].Folder? && entries[name].marker.Some? && entries[name].marker.value == DEMO_CREATOR {
            return name, k;
          }
        }
        k := k + 1;
        ghost var tried := NamesTried(folder, k, taken);
      }
      entries := entries[name := Folder(Some(DEMO_CREATOR), files)];
      suffix := k;
    }
  }
}

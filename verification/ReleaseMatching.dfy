/**
 * How the normalisers find the desired item a live item stands for, and which pull policy they take for the
 * default of an image: stated on the lists and the image texts.
 */
module ReleaseMatching {
  import opened Common
  import opened ReleaseTrees
  import opened ReleaseNormalisation

  // ---------------------------------------------------------------- matching by name

  predicate HasName(t: Tree, name: string) { t.Map? && "name" in t.entries && t.entries["name"] == Str(name) }

  lemma {:induction false} NobodyIsNamed(items: seq<Tree>, name: string)
    ensures NamedItems(items, name) == [] <==> forall i | 0 <= i < |items| :: !HasName(items[i], name)
  {
    if items != [] {
      NobodyIsNamed(items[1..], name);
      forall i | 0 < i < |items| ensures items[1..][i - 1] == items[i] {}
    }
  }

  lemma {:induction false} OneIsNamed(items: seq<Tree>, name: string, i: nat)
    requires i < |items| && HasName(items[i], name)
    ensures NamedItems(items, name) == [items[i].entries] <==>
      forall j | 0 <= j < |items| && j != i :: !HasName(items[j], name)
    ensures |NamedItems(items, name)| == 1 <==> forall j | 0 <= j < |items| && j != i :: !HasName(items[j], name)
  {
    forall j | 0 < j < |items| ensures items[1..][j - 1] == items[j] {}
    if i == 0 {
      NobodyIsNamed(items[1..], name);
    } else {
      OneIsNamed(items[1..], name, i - 1);
      NobodyIsNamed(items[1..], name);
      if HasName(items[0], name) { assert NamedItems(items[1..], name) != []; }
    }
  }

  /** Item i of the desired list is the only one with the live item's name. */
  ghost predicate IsOnlyMatch(items: seq<Tree>, live: Object, i: nat) {
    && i < |items| && "name" in live && live["name"].Str? && HasName(items[i], live["name"].text)
    && forall j | 0 <= j < |items| && j != i :: !HasName(items[j], live["name"].text)
  }

  /** A live item is matched with the only desired item of its name, and with none when there is no such one. */
  lemma ItemIsMatched(desired: Object, key: string, live: Object)
    ensures key in desired && desired[key].List? ==>
      var items := desired[key].items;
      && (forall i: nat | IsOnlyMatch(items, live, i) :: MatchingItem(desired, key, live) == items[i].entries)
      && ((forall i: nat :: !IsOnlyMatch(items, live, i)) ==> MatchingItem(desired, key, live) == map[])
    ensures !(key in desired && desired[key].List?) ==> MatchingItem(desired, key, live) == map[]
  {
    if key in desired && desired[key].List? && "name" in live && live["name"].Str? {
      var items, name := desired[key].items, live["name"].text;
      forall i: nat | IsOnlyMatch(items, live, i) ensures MatchingItem(desired, key, live) == items[i].entries {
        OneIsNamed(items, name, i);
      }
      if forall i: nat :: !IsOnlyMatch(items, live, i) {
        NobodyIsNamed(items, name);
        if i: nat :| i < |items| && HasName(items[i], name) {
          OneIsNamed(items, name, i);
          assert !IsOnlyMatch(items, live, i);
        }
      }
    }
  }

  // ---------------------------------------------------------------- pull policies

  lemma {:induction false} ComponentIsLast(before: string, name: string)
    requires '/' !in name && (before == "" || before[|before| - 1] == '/')
    ensures LastComponent(before + name) == name
    decreases |name|
  {
    var image := before + name;
    if name == "" {
      assert image == before;
    } else {
      var n := |name| - 1;
      assert image[..|image| - 1] == before + name[..n];
      assert name[n] in name && image[|image| - 1] == name[n];
      ComponentIsLast(before, name[..n]);
      assert name == name[..n] + [name[n]];
    }
  }

  /** An image whose last component names no tag, or ends in `:latest`, is always pulled by default, and any other
      only when it is not present; without an image there is no default. */
  lemma PullPolicyFollowsTag(container: Object, before: string, name: string)
    requires "image" in container && container["image"] == Str(before + name) && before + name != ""
    requires '/' !in name && (before == "" || before[|before| - 1] == '/')
    ensures
      var latest := |name| >= 7 && name[|name| - 7..] == ":latest";
      DefaultPullPolicy(container) == Some(Str(if ':' !in name || latest then "Always" else "IfNotPresent"))
  {
    ComponentIsLast(before, name);
  }

  lemma NoImageNoPolicy(container: Object)
    ensures DefaultPullPolicy(container).None? <==>
      !("image" in container && container["image"].Str? && container["image"].text != "")
  {
  }
}

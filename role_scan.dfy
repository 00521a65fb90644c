/**
 * The contributor-role scan of `parse_song_info`: a left-to-right walk over
 * the cleaned text items of the staff block that remembers the most recent
 * label (`current_key`) and files every other item under the role that label
 * names, if it names one.
 */
module RoleScan {
  import opened PySeq

  /** The six role lists of a song record. */
  datatype Role = Vocals | Featuring | Composer | Lyricist | Arranger | Producer

  const AllRoles: set<Role> := {Vocals, Featuring, Composer, Lyricist, Arranger, Producer}

  /** `attr_map`: the labels that open a role list. */
  const AttrMap: map<string, Role> := map[
    "보컬" := Vocals,
    "피쳐링" := Featuring,
    "작사" := Lyricist,
    "작곡" := Composer,
    "편곡" := Arranger,
    "프로듀서" := Producer
  ]

  /** `ignored_attr_set`: labels (instrument and performance credits) that open no role list. */
  const IgnoredLabels: set<string> := {"일렉트릭 기타", "피아노", "나래이션", "코러스", "랩"}

  /** `attr_map` holds exactly the six role labels and maps them onto the six roles, one label each. */
  lemma RoleLabels()
    ensures AttrMap.Keys == {"보컬", "피쳐링", "작사", "작곡", "편곡", "프로듀서"}
    ensures AttrMap.Values == AllRoles
    ensures forall a, b :: a in AttrMap && b in AttrMap && AttrMap[a] == AttrMap[b] ==> a == b
  {
  }

  /** `ignored_attr_set` holds five labels, none of which is a role label. */
  lemma IgnoredLabelsApart()
    ensures forall x :: x in IgnoredLabels ==> x !in AttrMap
    ensures |IgnoredLabels| == 5
  {
  }

  /** An item that becomes the new `current_key` rather than data. */
  predicate IsLabel(item: string)
  {
    item in AttrMap || item in IgnoredLabels
  }

  /** The label `key` opens the list of `role`. */
  predicate Opens(key: string, role: Role)
  {
    key in AttrMap && AttrMap[key] == role
  }

  /** `current_key` once the scan has consumed `items` (initially the empty string). */
  function KeyAfter(items: seq<string>): string
  {
    if items == [] then ""
    else if IsLabel(items[|items| - 1]) then items[|items| - 1]
    else KeyAfter(items[..|items| - 1])
  }

  /** The list of `role` once the scan has consumed `items`. */
  function RoleList(items: seq<string>, role: Role): seq<string>
  {
    if items == [] then []
    else
      var init, item := items[..|items| - 1], items[|items| - 1];
      if !IsLabel(item) && Opens(KeyAfter(init), role) then RoleList(init, role) + [item]
      else RoleList(init, role)
  }

  /** The scan of the source: one pass, appending to the list the current label names. */
  method ScanRoles(items: seq<string>) returns (roles: map<Role, seq<string>>)
    ensures roles.Keys == AllRoles
    ensures forall role :: role in roles ==> roles[role] == RoleList(items, role)
  {
    roles := map[Vocals := [], Featuring := [], Composer := [], Lyricist := [], Arranger := [], Producer := []];
    var currentKey := "";
    for i := 0 to |items|
      invariant roles.Keys == AllRoles
      invariant currentKey == KeyAfter(items[..i])
      invariant forall role :: role in roles ==> roles[role] == RoleList(items[..i], role)
    {
      var item := items[i];
      assert items[..i + 1][..i] == items[..i];
      if IsLabel(item) {
        currentKey := item;
        continue;
      }
      if currentKey in AttrMap {
        var role := AttrMap[currentKey];
        roles := roles[role := roles[role] + [item]];
      }
    }
    assert items[..|items|] == items;
  }

  // ---------------------------------------------------------------------------
  // Reference definitions, stated position by position

  /** `items[j]` is the last label strictly before position `k`. */
  ghost predicate NearestLabel(items: seq<string>, j: int, k: int)
  {
    0 <= j < k <= |items| && IsLabel(items[j]) && forall m :: j < m < k ==> !IsLabel(items[m])
  }

  /** The item at `k` is data and the nearest label before it opens `role`. */
  ghost predicate Lands(items: seq<string>, k: int, role: Role)
  {
    0 <= k < |items| && !IsLabel(items[k]) && exists j :: NearestLabel(items, j, k) && Opens(items[j], role)
  }

  /** The item at `k` is data and the nearest label before it opens some role. */
  ghost predicate Collected(items: seq<string>, k: int)
  {
    0 <= k < |items| && !IsLabel(items[k]) && exists j :: NearestLabel(items, j, k) && items[j] in AttrMap
  }

  /** The positions below `n` whose item lands in `role`, in increasing order. */
  ghost function LandingIndices(items: seq<string>, n: nat, role: Role): seq<int>
    requires n <= |items|
  {
    if n == 0 then []
    else LandingIndices(items, n - 1, role) + if Lands(items, n - 1, role) then [n - 1] else []
  }

  /** The number of positions below `n` whose item is collected into some role. */
  ghost function CollectedCount(items: seq<string>, n: nat): nat
    requires n <= |items|
  {
    if n == 0 then 0 else CollectedCount(items, n - 1) + if Collected(items, n - 1) then 1 else 0
  }

  // ---------------------------------------------------------------------------
  // Properties of the scan

  /** `current_key` after a prefix is the nearest label before it, or empty when there is none. */
  lemma {:induction false} KeyAfterIsNearestLabel(items: seq<string>, k: nat)
    requires k <= |items|
    ensures forall j :: NearestLabel(items, j, k) ==> KeyAfter(items[..k]) == items[j]
    ensures KeyAfter(items[..k]) == "" || exists j :: NearestLabel(items, j, k) && KeyAfter(items[..k]) == items[j]
  {
    if k > 0 {
      var p := items[..k];
      assert p[..k - 1] == items[..k - 1];
      assert p[k - 1] == items[k - 1];
      if IsLabel(items[k - 1]) {
        assert NearestLabel(items, k - 1, k);
      } else {
        KeyAfterIsNearestLabel(items, k - 1);
        assert forall j :: NearestLabel(items, j, k) ==> NearestLabel(items, j, k - 1);
        assert forall j :: NearestLabel(items, j, k - 1) ==> NearestLabel(items, j, k);
      }
    }
  }

  /** The label the scan holds at `k` decides where the item at `k` lands. */
  lemma LandsFromKey(items: seq<string>, k: nat, role: Role)
    requires k < |items|
    ensures Lands(items, k, role) <==> !IsLabel(items[k]) && Opens(KeyAfter(items[..k]), role)
    ensures Collected(items, k) <==> !IsLabel(items[k]) && KeyAfter(items[..k]) in AttrMap
  {
    KeyAfterIsNearestLabel(items, k);
  }

  /** One step of the scan adds the item at `k` to the list of `role` exactly when it lands there. */
  lemma RoleListStep(items: seq<string>, k: nat, role: Role)
    requires k < |items|
    ensures RoleList(items[..k + 1], role) ==
            RoleList(items[..k], role) + if Lands(items, k, role) then [items[k]] else []
  {
    var p := items[..k + 1];
    assert p[..k] == items[..k];
    LandsFromKey(items, k, role);
  }

  /** The list of `role` built from the first `n` items picks exactly the landing positions below `n`. */
  lemma {:induction false} RoleListPicksLandingsPrefix(items: seq<string>, n: nat, role: Role)
    requires n <= |items|
    ensures var rl, idx := RoleList(items[..n], role), LandingIndices(items, n, role);
            && |rl| == |idx|
            && (forall t :: 0 <= t < |idx| ==> 0 <= idx[t] < n && rl[t] == items[idx[t]])
            && (forall t, u :: 0 <= t < u < |idx| ==> idx[t] < idx[u])
            && (forall k :: 0 <= k < |items| ==> (k in idx <==> k < n && Lands(items, k, role)))
  {
    if n > 0 {
      RoleListPicksLandingsPrefix(items, n - 1, role);
      RoleListStep(items, n - 1, role);
    }
  }

  /**
   * The list of `role` is the subsequence of the items at exactly the
   * positions whose nearest preceding label opens `role`.
   */
  lemma RoleListPicksLandings(items: seq<string>, role: Role)
    ensures var rl, idx := RoleList(items, role), LandingIndices(items, |items|, role);
            && |rl| == |idx|
            && (forall t :: 0 <= t < |idx| ==> 0 <= idx[t] < |items| && rl[t] == items[idx[t]])
            && (forall t, u :: 0 <= t < u < |idx| ==> idx[t] < idx[u])
            && (forall k :: 0 <= k < |items| ==> (k in idx <==> Lands(items, k, role)))
  {
    RoleListPicksLandingsPrefix(items, |items|, role);
    assert items[..|items|] == items;
  }

  /** No label is ever filed as data. */
  lemma NoLabelInRoleList(items: seq<string>, role: Role)
    ensures forall x :: x in RoleList(items, role) ==> !IsLabel(x)
  {
    RoleListPicksLandings(items, role);
    var rl, idx := RoleList(items, role), LandingIndices(items, |items|, role);
    forall x | x in rl ensures !IsLabel(x) {
      var t :| 0 <= t < |rl| && rl[t] == x;
      assert Lands(items, idx[t], role);
    }
  }

  /** Each role list keeps the order of the scanned items. */
  lemma {:induction false} RoleListIsSubsequence(items: seq<string>, role: Role)
    ensures IsSubsequence(RoleList(items, role), items)
  {
    if items != [] {
      var init, item := items[..|items| - 1], items[|items| - 1];
      assert items == init + [item];
      RoleListIsSubsequence(init, role);
      if !IsLabel(item) && Opens(KeyAfter(init), role) {
        SubsequenceAppendBoth(RoleList(init, role), init, item);
      } else {
        SubsequenceExtend(RoleList(init, role), init, item);
      }
    }
  }

  /** One step of the scan lengthens the list of `role` by one exactly when the current label opens it. */
  lemma RoleListLengthStep(items: seq<string>, k: nat, role: Role)
    requires k < |items|
    ensures |RoleList(items[..k + 1], role)| ==
            |RoleList(items[..k], role)| + if !IsLabel(items[k]) && Opens(KeyAfter(items[..k]), role) then 1 else 0
  {
    var p := items[..k + 1];
    assert p[..k] == items[..k];
  }

  /** The six lists built from the first `n` items hold, together, exactly the items collected below `n`. */
  lemma {:induction false} RoleListsTotalPrefix(items: seq<string>, n: nat)
    requires n <= |items|
    ensures var p := items[..n];
            |RoleList(p, Vocals)| + |RoleList(p, Featuring)| + |RoleList(p, Composer)|
            + |RoleList(p, Lyricist)| + |RoleList(p, Arranger)| + |RoleList(p, Producer)|
            == CollectedCount(items, n)
  {
    if n > 0 {
      var k := n - 1;
      RoleListsTotalPrefix(items, k);
      RoleListLengthStep(items, k, Vocals);
      RoleListLengthStep(items, k, Featuring);
      RoleListLengthStep(items, k, Composer);
      RoleListLengthStep(items, k, Lyricist);
      RoleListLengthStep(items, k, Arranger);
      RoleListLengthStep(items, k, Producer);
      LandsFromKey(items, k, Vocals);
    }
  }

  /**
   * The total length of the six lists is the number of data items whose
   * nearest preceding label opens a role; every other item is dropped.
   */
  lemma RoleListsTotal(items: seq<string>)
    ensures |RoleList(items, Vocals)| + |RoleList(items, Featuring)| + |RoleList(items, Composer)|
            + |RoleList(items, Lyricist)| + |RoleList(items, Arranger)| + |RoleList(items, Producer)|
            == CollectedCount(items, |items|)
  {
    RoleListsTotalPrefix(items, |items|);
    assert items[..|items|] == items;
  }

  /** An item before every label, or after an ignored label, goes into no list. */
  lemma DroppedItem(items: seq<string>, k: nat)
    requires k < |items| && !IsLabel(items[k])
    requires (forall m :: 0 <= m < k ==> !IsLabel(items[m]))
             || exists j :: NearestLabel(items, j, k) && items[j] in IgnoredLabels
    ensures forall role :: RoleList(items[..k + 1], role) == RoleList(items[..k], role)
  {
    forall role ensures RoleList(items[..k + 1], role) == RoleList(items[..k], role) {
      RoleListStep(items, k, role);
      KeyAfterIsNearestLabel(items, k);
    }
  }

  /** The prefixes of the worked example and the label the scan holds after each. */
  lemma ChorusExampleKeys(items: seq<string>, p: seq<seq<string>>)
    requires items == ["보컬", "Alice", "작사", "Bob", "코러스", "Carol", "작곡", "Dan"]
    requires p == [items[..0], items[..1], items[..2], items[..3], items[..4], items[..5], items[..6], items[..7], items]
    ensures forall n :: 0 < n <= 8 ==> |p[n]| == n && p[n][..n - 1] == p[n - 1] && p[n][n - 1] == items[n - 1]
    ensures && KeyAfter(p[0]) == "" && KeyAfter(p[1]) == "보컬" && KeyAfter(p[2]) == "보컬"
            && KeyAfter(p[3]) == "작사" && KeyAfter(p[4]) == "작사" && KeyAfter(p[5]) == "코러스"
            && KeyAfter(p[6]) == "코러스" && KeyAfter(p[7]) == "작곡"
  {
    forall n | 0 < n <= 8 ensures |p[n]| == n && p[n][..n - 1] == p[n - 1] && p[n][n - 1] == items[n - 1] { }
    assert KeyAfter(p[1]) == "보컬";
    assert KeyAfter(p[2]) == "보컬";
    assert KeyAfter(p[3]) == "작사";
    assert KeyAfter(p[4]) == "작사";
    assert KeyAfter(p[5]) == "코러스";
    assert KeyAfter(p[6]) == "코러스";
  }

  /**
   * A worked example: "Carol" follows the ignored label for chorus and is
   * dropped; every other name follows the label of its own role.
   */
  lemma ChorusExample()
    ensures var items := ["보컬", "Alice", "작사", "Bob", "코러스", "Carol", "작곡", "Dan"];
            RoleList(items, Vocals) == ["Alice"] && RoleList(items, Lyricist) == ["Bob"]
            && RoleList(items, Composer) == ["Dan"] && RoleList(items, Featuring) == []
            && RoleList(items, Arranger) == [] && RoleList(items, Producer) == []
  {
    var items := ["보컬", "Alice", "작사", "Bob", "코러스", "Carol", "작곡", "Dan"];
    var p := [items[..0], items[..1], items[..2], items[..3], items[..4], items[..5], items[..6], items[..7], items];
    ChorusExampleKeys(items, p);
    forall role ensures RoleList(items, role) == (
      match role
      case Vocals => ["Alice"] case Lyricist => ["Bob"] case Composer => ["Dan"] case _ => []) {
      assert RoleList(p[0], role) == [];
      assert RoleList(p[1], role) == [];
      assert RoleList(p[2], role) == if role == Vocals then ["Alice"] else [];
      assert RoleList(p[3], role) == RoleList(p[2], role);
      assert RoleList(p[4], role) == RoleList(p[2], role) + if role == Lyricist then ["Bob"] else [];
      assert RoleList(p[5], role) == RoleList(p[4], role);
      assert RoleList(p[6], role) == RoleList(p[4], role);
      assert RoleList(p[7], role) == RoleList(p[4], role);
      assert RoleList(p[8], role) == RoleList(p[4], role) + if role == Composer then ["Dan"] else [];
    }
  }
}

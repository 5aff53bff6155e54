/**
 * The project registry: an ordered list of `{id, title}` records, changed in
 * place by adding at the end, retitling one record and removing one record.
 * Ids are handed out as the last id plus one, so they increase along the list.
 */
module Registry {

  datatype Project = Project(id: nat, title: string)

  /** The list invariant: ids strictly increase in list order. */
  predicate IdsIncreasing(ps: seq<Project>) {
    forall i, j :: 0 <= i < j < |ps| ==> ps[i].id < ps[j].id
  }

  predicate HasId(ps: seq<Project>, id: int) {
    exists k :: 0 <= k < |ps| && ps[k].id == id
  }

  /** The largest id in a non-empty list. */
  function MaxId(ps: seq<Project>): (m: nat)
    requires ps != []
    ensures HasId(ps, m)
    ensures forall k :: 0 <= k < |ps| ==> ps[k].id <= m
  {
    if |ps| == 1 then ps[0].id
    else
      var rest := MaxId(ps[..|ps| - 1]);
      if ps[|ps| - 1].id < rest then rest else ps[|ps| - 1].id
  }

  /** The id a new project receives: one more than the largest id, or 0 in an empty list. */
  function NextFreeId(ps: seq<Project>): (id: nat)
    ensures forall k :: 0 <= k < |ps| ==> ps[k].id < id
    ensures ps != [] ==> HasId(ps, id - 1)
  {
    if ps == [] then 0 else MaxId(ps) + 1
  }

  /** The list without the records whose id is `id`, the others in their order. */
  function Without(ps: seq<Project>, id: int): (r: seq<Project>)
    ensures |r| <= |ps|
  {
    if ps == [] then []
    else if ps[0].id == id then Without(ps[1..], id)
    else [ps[0]] + Without(ps[1..], id)
  }

  /** Exactly the records with another id survive a removal. */
  lemma {:induction false} WithoutMembers(ps: seq<Project>, id: int)
    ensures forall p :: p in Without(ps, id) <==> p in ps && p.id != id
  {
    if ps != [] {
      WithoutMembers(ps[1..], id);
      assert ps == [ps[0]] + ps[1..];
    }
  }

  /** The list with every record whose id is `id` carrying title `title`. */
  function Retitled(ps: seq<Project>, id: int, title: string): (r: seq<Project>)
    ensures |r| == |ps|
    ensures forall k :: 0 <= k < |ps| ==> r[k].id == ps[k].id
    ensures forall k :: 0 <= k < |ps| ==> r[k].title == if ps[k].id == id then title else ps[k].title
  {
    if ps == [] then []
    else [if ps[0].id == id then Project(id, title) else ps[0]] + Retitled(ps[1..], id, title)
  }

  /** In an increasing list the last id is the largest. */
  lemma {:induction false} LastIsMax(ps: seq<Project>)
    requires ps != [] && IdsIncreasing(ps)
    ensures MaxId(ps) == ps[|ps| - 1].id
  {
    if |ps| > 1 {
      LastIsMax(ps[..|ps| - 1]);
    }
  }

  /** No two records of an increasing list share an id. */
  lemma IdsUnique(ps: seq<Project>, i: int, j: int)
    requires IdsIncreasing(ps)
    requires 0 <= i < |ps| && 0 <= j < |ps| && ps[i].id == ps[j].id
    ensures i == j
  {
  }

  /** Appending a record with the next free id keeps the ids increasing. */
  lemma AppendNextKeepsIncreasing(ps: seq<Project>, title: string)
    requires IdsIncreasing(ps)
    ensures IdsIncreasing(ps + [Project(NextFreeId(ps), title)])
    ensures forall k :: 0 <= k < |ps| ==> ps[k].id < NextFreeId(ps)
  {
  }

  /** Removing records keeps the ids increasing. */
  lemma {:induction false} WithoutKeepsIncreasing(ps: seq<Project>, id: int)
    requires IdsIncreasing(ps)
    ensures IdsIncreasing(Without(ps, id))
  {
    if ps != [] {
      var rest := Without(ps[1..], id);
      WithoutKeepsIncreasing(ps[1..], id);
      WithoutMembers(ps[1..], id);
      if ps[0].id != id {
        forall k | 0 <= k < |rest| ensures ps[0].id < rest[k].id {
          assert rest[k] in ps[1..];
        }
      }
    }
  }

  /** Removing an id that is absent leaves the list as it is. */
  lemma {:induction false} WithoutAbsent(ps: seq<Project>, id: int)
    requires !HasId(ps, id)
    ensures Without(ps, id) == ps
  {
    if ps != [] {
      assert !HasId(ps[1..], id) by {
        forall k | 0 <= k < |ps| - 1 ensures ps[1..][k].id != id {
          assert ps[1..][k] == ps[k + 1];
        }
      }
      WithoutAbsent(ps[1..], id);
      assert ps == [ps[0]] + ps[1..];
    }
  }

  lemma TailIncreasing(ps: seq<Project>)
    requires IdsIncreasing(ps) && ps != []
    ensures IdsIncreasing(ps[1..])
    ensures forall j :: 0 <= j < |ps| - 1 ==> ps[0].id < ps[1..][j].id
  {
    var tail := ps[1..];
    forall i, j | 0 <= i < j < |tail| ensures tail[i].id < tail[j].id {
      assert tail[i] == ps[i + 1] && tail[j] == ps[j + 1];
    }
    forall j | 0 <= j < |tail| ensures ps[0].id < tail[j].id {
      assert tail[j] == ps[j + 1];
    }
  }

  /**
   * In an increasing list, removing the id of the record at index k is cutting
   * out exactly that record: the others stay, in their order.
   */
  lemma {:induction false} WithoutIsSplice(ps: seq<Project>, k: nat)
    requires IdsIncreasing(ps) && k < |ps|
    ensures Without(ps, ps[k].id) == ps[..k] + ps[k + 1..]
  {
    var id := ps[k].id;
    var tail := ps[1..];
    TailIncreasing(ps);
    if k == 0 {
      assert !HasId(tail, id);
      WithoutAbsent(tail, id);
    } else {
      assert tail[k - 1] == ps[k];
      WithoutIsSplice(tail, k - 1);
      assert ps[..k] + ps[k + 1..] == [ps[0]] + (tail[..k - 1] + tail[k..]);
    }
  }

  /** In an increasing list, retitling by id changes the one record at index k. */
  lemma RetitledIsUpdate(ps: seq<Project>, k: nat, title: string)
    requires IdsIncreasing(ps) && k < |ps|
    ensures Retitled(ps, ps[k].id, title) == ps[k := Project(ps[k].id, title)]
  {
    var r := Retitled(ps, ps[k].id, title);
    forall j | 0 <= j < |ps| ensures r[j] == ps[k := Project(ps[k].id, title)][j] {
      if j != k {
        assert ps[j].id != ps[k].id;
      }
    }
  }

  /** Retitling keeps every id in place, so the invariant holds afterwards. */
  lemma RetitledKeepsIncreasing(ps: seq<Project>, id: int, title: string)
    requires IdsIncreasing(ps)
    ensures IdsIncreasing(Retitled(ps, id, title))
  {
  }

  lemma PrefixIncreasing(ps: seq<Project>, m: nat)
    requires IdsIncreasing(ps) && m <= |ps|
    ensures IdsIncreasing(ps[..m])
  {
    var pre := ps[..m];
    forall i, j | 0 <= i < j < m ensures pre[i].id < pre[j].id {
      assert pre[i] == ps[i] && pre[j] == ps[j];
    }
  }

  /** In an increasing list the next free id is the last id plus one, or 0. */
  lemma NextFreeIdOfIncreasing(ps: seq<Project>)
    requires IdsIncreasing(ps)
    ensures NextFreeId(ps) == if ps == [] then 0 else ps[|ps| - 1].id + 1
  {
    if ps != [] {
      LastIsMax(ps);
    }
  }

  /** In an increasing list, removing the last id drops the last record. */
  lemma WithoutLast(ps: seq<Project>)
    requires IdsIncreasing(ps) && ps != []
    ensures Without(ps, ps[|ps| - 1].id) == ps[..|ps| - 1]
  {
    WithoutIsSplice(ps, |ps| - 1);
    assert ps[..|ps| - 1] + ps[|ps|..] == ps[..|ps| - 1];
  }

  /**
   * Deleting the last project and adding a new one hands out an id no larger
   * than the deleted one: the largest remaining id plus one, or 0.
   */
  lemma DeleteLastThenAdd(ps: seq<Project>)
    requires IdsIncreasing(ps) && ps != []
    ensures NextFreeId(Without(ps, ps[|ps| - 1].id)) <= ps[|ps| - 1].id
    ensures NextFreeId(Without(ps, ps[|ps| - 1].id))
            == if |ps| == 1 then 0 else ps[|ps| - 2].id + 1
  {
    var n := |ps|;
    var rest := ps[..n - 1];
    WithoutLast(ps);
    PrefixIncreasing(ps, n - 1);
    NextFreeIdOfIncreasing(rest);
    if n > 1 {
      assert rest[n - 2] == ps[n - 2];
      assert ps[n - 2].id < ps[n - 1].id;
    }
  }

  /** The list that a run of additions alone builds from an empty registry. */
  function AddedInOrder(titles: seq<string>): (ps: seq<Project>)
    ensures |ps| == |titles|
    ensures forall k :: 0 <= k < |titles| ==> ps[k].title == titles[k]
  {
    if titles == [] then []
    else
      var before := AddedInOrder(titles[..|titles| - 1]);
      before + [Project(NextFreeId(before), titles[|titles| - 1])]
  }

  /** Additions alone number the projects 0, 1, 2, ... in list order. */
  lemma {:induction false} AddedInOrderIds(titles: seq<string>)
    ensures IdsIncreasing(AddedInOrder(titles))
    ensures forall k :: 0 <= k < |titles| ==> AddedInOrder(titles)[k].id == k
  {
    if titles != [] {
      var n := |titles|;
      var before := AddedInOrder(titles[..n - 1]);
      var ps := AddedInOrder(titles);
      AddedInOrderIds(titles[..n - 1]);
      assert NextFreeId(before) == n - 1 by {
        if before != [] {
          LastIsMax(before);
        }
      }
      assert ps == before + [Project(n - 1, titles[n - 1])];
      AppendNextKeepsIncreasing(before, titles[n - 1]);
      forall k | 0 <= k < n ensures ps[k].id == k {
        if k < n - 1 {
          assert ps[k] == before[k];
        }
      }
    }
  }

  /**
   * After additions alone, deleting the last project and adding another gives
   * the new one the deleted id again (projects 0, 1, 2; delete 2; add: id 2).
   */
  lemma DeleteLastThenAddReusesId(titles: seq<string>)
    requires titles != []
    ensures var ps := AddedInOrder(titles);
            NextFreeId(Without(ps, ps[|ps| - 1].id)) == ps[|ps| - 1].id
  {
    var ps := AddedInOrder(titles);
    AddedInOrderIds(titles);
    DeleteLastThenAdd(ps);
  }

  /**
   * The lookup shared by `find` and `map(...).indexOf(...)`: the first index
   * whose record has the id, or -1 when none has it.
   */
  method FindIndex(ps: seq<Project>, id: int) returns (index: int)
    ensures -1 <= index < |ps|
    ensures index == -1 <==> !HasId(ps, id)
    ensures 0 <= index ==> ps[index].id == id
    ensures forall k :: 0 <= k < index ==> ps[k].id != id
  {
    index := 0;
    while index < |ps|
      invariant 0 <= index <= |ps|
      invariant forall k :: 0 <= k < index ==> ps[k].id != id
    {
      if ps[index].id == id {
        return;
      }
      index := index + 1;
    }
    index := -1;
  }

  /** The registry object, with the list it updates in place. */
  class ProjectStore {
    var allProjects: seq<Project>

    ghost predicate Valid()
      reads this
    {
      IdsIncreasing(allProjects)
    }

    constructor ()
      ensures Valid() && allProjects == []
    {
      allProjects := [];
    }

    /**
     * Appends a project titled `title` whose id is the last id plus one (0 for an
     * empty list), which is the next free id, and returns it.
     */
    method AddProject(title: string) returns (p: Project)
      requires Valid()
      modifies this
      ensures Valid()
      ensures p == Project(NextFreeId(old(allProjects)), title)
      ensures allProjects == old(allProjects) + [p]
    {
      var id: nat;
      if |allProjects| > 0 {
        id := allProjects[|allProjects| - 1].id + 1;
        LastIsMax(allProjects);
      } else {
        id := 0;
      }
      p := Project(id, title);
      AppendNextKeepsIncreasing(allProjects, title);
      allProjects := allProjects + [p];
    }

    /** Overwrites the title of the project with id `id`, which must be present. */
    method UpdateTitle(newTitle: string, id: int)
      requires Valid() && HasId(allProjects, id)
      modifies this
      ensures Valid()
      ensures allProjects == Retitled(old(allProjects), id, newTitle)
    {
      var index := FindIndex(allProjects, id);
      RetitledIsUpdate(allProjects, index, newTitle);
      RetitledKeepsIncreasing(allProjects, id, newTitle);
      allProjects := allProjects[index := Project(id, newTitle)];
    }

    /** Removes the project with id `id` if there is one; otherwise nothing changes. */
    method DeleteData(id: int)
      requires Valid()
      modifies this
      ensures Valid()
      ensures allProjects == Without(old(allProjects), id)
      ensures HasId(old(allProjects), id) <==> |allProjects| == |old(allProjects)| - 1
      ensures !HasId(old(allProjects), id) ==> allProjects == old(allProjects)
    {
      var index := FindIndex(allProjects, id);
      WithoutKeepsIncreasing(allProjects, id);
      if index != -1 {
        WithoutIsSplice(allProjects, index);
        allProjects := allProjects[..index] + allProjects[index + 1..];
      } else {
        WithoutAbsent(allProjects, id);
      }
    }
  }
}

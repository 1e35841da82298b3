/**
 * The family-tree page (frontend/src/FamilyTree.tsx): looking members up, finding a member's
 * spouse and children, the expand/collapse sets, the merge of the two root members into the
 * member list, and the shape of the rendered tree. Fetches are parameters of type `Fetch`.
 */
module FamilyTree {
  import opened Wrappers
  import opened Text
  import opened Types
  import opened Lists
  import opened Sets

  /** A family member; `marriedTo` is optional and may be empty. Birthdays are ISO dates. */
  datatype Member = Member(id: string, name: string, surname: string, birthday: string,
                           marriedTo: Option<string>, mom: string, dad: string)

  /** `members.find(m => m.id === id)`: the first member with that id. */
  function GetMemberById(members: seq<Member>, id: string): (r: Option<Member>)
    ensures r.None? <==> forall i :: 0 <= i < |members| ==> members[i].id != id
    ensures r.Some? ==> exists i :: 0 <= i < |members| && members[i] == r.value &&
                                    forall j :: 0 <= j < i ==> members[j].id != id
    ensures r.Some? ==> r.value.id == id
  {
    if members == [] then None
    else if members[0].id == id then Some(members[0])
    else
      var r := GetMemberById(members[1..], id);
      if r.Some? then
        var i :| 0 <= i < |members[1..]| && members[1..][i] == r.value &&
                 forall j :: 0 <= j < i ==> members[1..][j].id != id;
        assert members[i + 1] == r.value;
        r
      else r
  }

  /** Two members with the same id are never both returned: the first one shadows the rest. */
  lemma {:induction false} FirstMemberWins(a: seq<Member>, m: Member, b: seq<Member>)
    requires forall i :: 0 <= i < |a| ==> a[i].id != m.id
    ensures GetMemberById(a + [m] + b, m.id) == Some(m)
  {
    if a != [] {
      assert (a + [m] + b)[0] == a[0];
      assert (a + [m] + b)[1..] == a[1..] + [m] + b;
      FirstMemberWins(a[1..], m, b);
    }
  }

  /** `getSpouse`: none when `marriedTo` is unset or empty, else the lookup (which may miss). */
  function GetSpouse(members: seq<Member>, m: Member): (r: Option<Member>)
    ensures m.marriedTo.None? || m.marriedTo.value == "" ==> r.None?
    ensures m.marriedTo.Some? && m.marriedTo.value != "" ==> r == GetMemberById(members, m.marriedTo.value)
  {
    if m.marriedTo.None? || m.marriedTo.value == "" then None
    else GetMemberById(members, m.marriedTo.value)
  }

  /** The filter of `getChildren`: a child of the parent, or of the spouse when one is given. */
  predicate ChildOf(m: Member, parentId: string, spouseId: Option<string>) {
    m.mom == parentId || m.dad == parentId ||
    (spouseId.Some? && spouseId.value != "" && (m.mom == spouseId.value || m.dad == spouseId.value))
  }

  /** The comparator of `getChildren`: the older member may come first. */
  function OldestFirst(): (Member, Member) -> bool {
    (a: Member, b: Member) => LexLe(a.birthday, b.birthday)
  }

  lemma OldestFirstIsTotalPreorder()
    ensures TotalPreorder(OldestFirst())
  {
    var le := OldestFirst();
    forall a, b
      ensures le(a, b) || le(b, a)
    {
      LexLeTotal(a.birthday, b.birthday);
    }
    forall a, b, c | le(a, b) && le(b, c)
      ensures le(a, c)
    {
      LexLeTransitive(a.birthday, b.birthday, c.birthday);
    }
  }

  /** `getChildren(parentId, spouseId)`: the filter, sorted by birthday. */
  function GetChildren(members: seq<Member>, parentId: string, spouseId: Option<string>): (r: seq<Member>)
    ensures forall m :: m in r <==> m in members && ChildOf(m, parentId, spouseId)
  {
    var filtered := Filter(members, (m: Member) => ChildOf(m, parentId, spouseId));
    SortSameElements(filtered, OldestFirst());
    Sort(filtered, OldestFirst())
  }

  /**
   * The children are exactly the members that are a child of either parent, each as often as
   * it occurs in `members` (a child of both parents is not listed twice), oldest first.
   */
  lemma ChildrenSpec(members: seq<Member>, parentId: string, spouseId: Option<string>)
    ensures forall m :: m in GetChildren(members, parentId, spouseId) <==>
                          m in members && ChildOf(m, parentId, spouseId)
    ensures forall m :: multiset(GetChildren(members, parentId, spouseId))[m] ==
                          if ChildOf(m, parentId, spouseId) then multiset(members)[m] else 0
    ensures forall i, j :: 0 <= i < j < |GetChildren(members, parentId, spouseId)| ==>
              LexLe(GetChildren(members, parentId, spouseId)[i].birthday,
                    GetChildren(members, parentId, spouseId)[j].birthday)
  {
    var filtered := Filter(members, (m: Member) => ChildOf(m, parentId, spouseId));
    FilterCounts(members, (m: Member) => ChildOf(m, parentId, spouseId));
    SortSameElements(filtered, OldestFirst());
    OldestFirstIsTotalPreorder();
    SortSorted(filtered, OldestFirst());
  }

  /** The filter of `fetchRootMembers`: every member other than the roots `1` and `2`. */
  predicate NotRoot(m: Member) {
    m.id != "1" && m.id != "2"
  }

  /** `fetchRootMembers` with both roots found: the two married to each other, then the rest. */
  function MergeRoots(m1: Member, m2: Member, all: seq<Member>): (r: seq<Member>)
    ensures |r| >= 2 && r[0] == m1.(marriedTo := Some("2")) && r[1] == m2.(marriedTo := Some("1"))
    ensures forall i :: 2 <= i < |r| ==> r[i].id != "1" && r[i].id != "2"
    ensures forall m :: m in r[2..] <==> m in all && m.id != "1" && m.id != "2"
  {
    [m1.(marriedTo := Some("2")), m2.(marriedTo := Some("1"))] + Filter(all, NotRoot)
  }

  /**
   * After the two roots, every other member of the list follows in its original order and
   * as often as it occurs there: the tail is `all` read at the increasing positions of the
   * non-root members.
   */
  lemma MergeRootsKeepsOthers(m1: Member, m2: Member, all: seq<Member>)
    ensures forall m :: multiset(MergeRoots(m1, m2, all)[2..])[m] == if NotRoot(m) then multiset(all)[m] else 0
    ensures |MergeRoots(m1, m2, all)| == 2 + |Positions(all, NotRoot, 0)|
    ensures forall k :: 2 <= k < |MergeRoots(m1, m2, all)| ==>
              MergeRoots(m1, m2, all)[k] == all[Positions(all, NotRoot, 0)[k - 2]]
  {
    assert MergeRoots(m1, m2, all)[2..] == Filter(all, NotRoot);
    FilterCounts(all, NotRoot);
    FilterInOrder(all, NotRoot);
  }

  /** After the merge, roots `1` and `2` are each other's spouse. */
  lemma RootsMarried(m1: Member, m2: Member, all: seq<Member>)
    requires m1.id == "1" && m2.id == "2"
    ensures GetMemberById(MergeRoots(m1, m2, all), "1") == Some(MergeRoots(m1, m2, all)[0])
    ensures GetSpouse(MergeRoots(m1, m2, all), MergeRoots(m1, m2, all)[0]) == Some(MergeRoots(m1, m2, all)[1])
    ensures GetSpouse(MergeRoots(m1, m2, all), MergeRoots(m1, m2, all)[1]) == Some(MergeRoots(m1, m2, all)[0])
  {
    var r := MergeRoots(m1, m2, all);
    assert r == [] + [r[0]] + r[1..];
    FirstMemberWins([], r[0], r[1..]);
    assert r == [r[0]] + [r[1]] + r[2..];
    FirstMemberWins([r[0]], r[1], r[2..]);
  }

  /** One member's card: the member, and its spouse when the spouse is toggled on and found. */
  datatype Card = Card(member: Member, shownSpouse: Option<Member>)

  /** `renderMemberWithRelations`: a card, and the subtrees of its children when expanded. */
  datatype Branch = Branch(card: Card, children: seq<Branch>)

  /** The children a member's branch descends into: none unless expanded and non-empty. */
  function ShownChildren(members: seq<Member>, showChildren: set<string>, m: Member): (r: seq<Member>)
    ensures m.id !in showChildren ==> r == []
    ensures m.id in showChildren ==> r == GetChildren(members, m.id, IdOf(GetSpouse(members, m)))
  {
    if m.id in showChildren then GetChildren(members, m.id, IdOf(GetSpouse(members, m))) else []
  }

  /** `spouse?.id` */
  function IdOf(spouse: Option<Member>): Option<string> {
    if spouse.Some? then Some(spouse.value.id) else None
  }

  /**
   * The rendered tree under `m`, `depth` levels deep. The page recurses without a bound;
   * the depth only stops the model on member data whose parent links form a cycle.
   */
  function Render(members: seq<Member>, showSpouse: set<string>, showChildren: set<string>,
                  m: Member, depth: nat): (b: Branch)
    ensures b.card.member == m
    ensures b.card.shownSpouse.Some? <==> m.id in showSpouse && GetSpouse(members, m).Some?
    ensures b.card.shownSpouse.Some? ==> b.card.shownSpouse == GetSpouse(members, m)
    ensures m.id !in showChildren || depth == 0 ==> b.children == []
    ensures depth > 0 ==> |b.children| == |ShownChildren(members, showChildren, m)|
    ensures depth > 0 ==> forall i :: 0 <= i < |b.children| ==>
              b.children[i].card.member == ShownChildren(members, showChildren, m)[i]
    decreases depth
  {
    var spouse := GetSpouse(members, m);
    var card := Card(m, if m.id in showSpouse then spouse else None);
    if depth == 0 then Branch(card, [])
    else
      var kids := ShownChildren(members, showChildren, m);
      Branch(card, seq(|kids|, i requires 0 <= i < |kids| => Render(members, showSpouse, showChildren, kids[i], depth - 1)))
  }

  /** The page's root: member `1`, or none (the "not found" message). */
  function RootView(members: seq<Member>, showSpouse: set<string>, showChildren: set<string>, depth: nat): (r: Option<Branch>)
    ensures r.Some? <==> GetMemberById(members, "1").Some?
    ensures r.Some? ==> r.value.card.member.id == "1"
  {
    match GetMemberById(members, "1")
    case None => None
    case Some(m1) => Some(Render(members, showSpouse, showChildren, m1, depth))
  }

  /** Collapsing a member hides its whole subtree and nothing else of its card. */
  lemma CollapseHidesSubtree(members: seq<Member>, showSpouse: set<string>, showChildren: set<string>,
                             m: Member, depth: nat)
    requires m.id in showChildren
    ensures Render(members, showSpouse, Toggle(showChildren, m.id), m, depth).children == []
    ensures Render(members, showSpouse, Toggle(showChildren, m.id), m, depth).card ==
            Render(members, showSpouse, showChildren, m, depth).card
  {
  }

  /** The page's state: the member list, the loading flag and the two expand sets. */
  class FamilyTreeView {
    var members: seq<Member>
    var loading: bool
    var showSpouse: set<string>
    var showChildren: set<string>

    constructor ()
      ensures members == [] && !loading && showSpouse == {} && showChildren == {}
    {
      members := [];
      loading := false;
      showSpouse := {};
      showChildren := {};
    }

    /** `toggleSpouse`: flips only `id` in the spouse set. */
    method ToggleSpouse(id: string)
      modifies this
      ensures showSpouse == Toggle(old(showSpouse), id)
      ensures members == old(members) && loading == old(loading) && showChildren == old(showChildren)
    {
      var next := showSpouse;
      if id in next {
        next := next - {id};
      } else {
        next := next + {id};
      }
      showSpouse := next;
    }

    /** `toggleChildren`: flips only `id` in the children set. */
    method ToggleChildren(id: string)
      modifies this
      ensures showChildren == Toggle(old(showChildren), id)
      ensures members == old(members) && loading == old(loading) && showSpouse == old(showSpouse)
    {
      var next := showChildren;
      if id in next {
        next := next - {id};
      } else {
        next := next + {id};
      }
      showChildren := next;
    }

    /**
     * `fetchRootMembers`. `root1` and `root2` are the fetches of members `1` and `2`
     * (`Fetched(None)` for a non-ok response), `all` the fetch of the whole list. Any fetch
     * that throws leaves the list as it was; loading ends false either way.
     */
    method FetchRootMembers(root1: Fetch<Member>, root2: Fetch<Member>, all: Fetch<seq<Member>>)
      modifies this
      ensures !loading && showSpouse == old(showSpouse) && showChildren == old(showChildren)
      ensures root1.Failed? || root2.Failed? || all.Failed? ==> members == old(members)
      ensures root1.Fetched? && root2.Fetched? && all.Fetched? ==>
                if root1.field.Some? && root2.field.Some?
                then members == MergeRoots(root1.field.value, root2.field.value, OrEmpty(all.field))
                else members == OrEmpty(all.field)
    {
      loading := true;
      if root1.Fetched? && root2.Fetched? {
        if root1.field.Some? && root2.field.Some? {
          var member1 := root1.field.value.(marriedTo := Some("2"));
          var member2 := root2.field.value.(marriedTo := Some("1"));
          if all.Fetched? {
            var allMembers := OrEmpty(all.field);
            var otherMembers := Filter(allMembers, NotRoot);
            members := [member1, member2] + otherMembers;
          }
        } else if all.Fetched? {
          members := OrEmpty(all.field);
        }
      }
      loading := false;
    }
  }
}

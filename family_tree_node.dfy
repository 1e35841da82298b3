/**
 * One node of the expandable tree (frontend/src/FamilyTreeNode.tsx). Each node caches its
 * children and its parents: the first click fetches a list and shows it; later clicks only
 * toggle visibility, as long as the cached list is non-empty.
 */
module FamilyTreeNode {
  import opened Wrappers
  import opened Types
  import opened FamilyTree

  /** A cached list of relatives and whether it is shown. */
  datatype Section = Section(items: seq<Member>, shown: bool)

  /** Whether a click on the section's button fetches (only while the cache is empty). */
  predicate Fetches(s: Section) {
    |s.items| == 0
  }

  /**
   * The effect of one click on a section's button, given what the fetch would return:
   * a non-empty cache toggles visibility; otherwise a successful fetch stores the list
   * (`[]` when the field is absent) and shows it, and a failed one changes nothing.
   */
  function Click(s: Section, response: Fetch<seq<Member>>): (t: Section)
    ensures !Fetches(s) ==> t == s.(shown := !s.shown)
    ensures Fetches(s) && response.Failed? ==> t == s
    ensures Fetches(s) && response.Fetched? ==> t == Section(OrEmpty(response.field), true)
  {
    if |s.items| > 0 then s.(shown := !s.shown)
    else match response
      case Failed => s
      case Fetched(field) => Section(OrEmpty(field), true)
  }

  /** A section is drawn only when it is shown and has something in it. */
  predicate Visible(s: Section) {
    s.shown && |s.items| > 0
  }

  /** With a non-empty cache, two clicks restore the section whatever the fetches would return. */
  lemma CachedClickTwice(s: Section, r1: Fetch<seq<Member>>, r2: Fetch<seq<Member>>)
    requires !Fetches(s)
    ensures !Fetches(Click(s, r1)) && Click(Click(s, r1), r2) == s
  {
  }

  /** A successful fetch of a non-empty list makes the section visible, and later clicks use the cache. */
  lemma FetchedListShown(s: Section, list: seq<Member>)
    requires Fetches(s) && list != []
    ensures Visible(Click(s, Fetched(Some(list)))) && !Fetches(Click(s, Fetched(Some(list))))
  {
  }

  /** An empty or absent list leaves the cache empty: nothing is drawn and the next click fetches again. */
  lemma EmptyFetchRefetches(s: Section, field: Option<seq<Member>>)
    requires Fetches(s) && OrEmpty(field) == []
    ensures !Visible(Click(s, Fetched(field))) && Fetches(Click(s, Fetched(field)))
  {
  }

  class TreeNode {
    const member: Member
    var children: seq<Member>
    var parents: seq<Member>
    var showChildren: bool
    var showParents: bool
    var loading: bool

    constructor (member: Member)
      ensures this.member == member
      ensures children == [] && parents == [] && !showChildren && !showParents && !loading
    {
      this.member := member;
      children := [];
      parents := [];
      showChildren := false;
      showParents := false;
      loading := false;
    }

    function ChildrenSection(): Section
      reads this
    {
      Section(children, showChildren)
    }

    function ParentsSection(): Section
      reads this
    {
      Section(parents, showParents)
    }

    /**
     * `fetchChildren`. `response` is what `GET familyTree/children/{id}` would give;
     * `fetched` tells whether the request was made.
     */
    method FetchChildren(response: Fetch<seq<Member>>) returns (fetched: bool)
      modifies this
      ensures fetched <==> Fetches(old(ChildrenSection()))
      ensures ChildrenSection() == Click(old(ChildrenSection()), response)
      ensures parents == old(parents) && showParents == old(showParents)
      ensures fetched ==> !loading
      ensures !fetched ==> loading == old(loading)
    {
      if |children| > 0 {
        showChildren := !showChildren;
        return false;
      }
      loading := true;
      if response.Fetched? {
        children := OrEmpty(response.field);
        showChildren := true;
      }
      loading := false;
      fetched := true;
    }

    /** `fetchParents`: the same cache, fetch and toggle rules on the parents section. */
    method FetchParents(response: Fetch<seq<Member>>) returns (fetched: bool)
      modifies this
      ensures fetched <==> Fetches(old(ParentsSection()))
      ensures ParentsSection() == Click(old(ParentsSection()), response)
      ensures children == old(children) && showChildren == old(showChildren)
      ensures fetched ==> !loading
      ensures !fetched ==> loading == old(loading)
    {
      if |parents| > 0 {
        showParents := !showParents;
        return false;
      }
      loading := true;
      if response.Fetched? {
        parents := OrEmpty(response.field);
        showParents := true;
      }
      loading := false;
      fetched := true;
    }
  }
}

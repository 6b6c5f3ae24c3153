/** The administrators' knowledge base (src/pages/admin/KnowledgeBase.tsx):
    a searchable list of guides, policies and answers with category and type
    filters, in-place updates and a form that adds a document at the top. */
module KnowledgeBase {
  import opened Common
  import opened Types

  /** The search box: empty, or found in the title or the content, ignoring
      case. */
  predicate MatchesSearch(item: KnowledgeItem, query: string) {
    query == "" || ContainsCI(item.title, query) || ContainsCI(item.content, query)
  }

  /** A filter that is unset, or empty, lets everything through. */
  predicate MatchesCategory(item: KnowledgeItem, category: Option<string>) {
    category.None? || category.value == "" || item.category == category.value
  }

  predicate MatchesType(item: KnowledgeItem, kind: Option<KnowledgeType>) {
    kind.None? || item.kind == kind.value
  }

  predicate Shown(item: KnowledgeItem, query: string, category: Option<string>, kind: Option<KnowledgeType>) {
    MatchesSearch(item, query) && MatchesCategory(item, category) && MatchesType(item, kind)
  }

  function FilteredItems(items: seq<KnowledgeItem>, query: string, category: Option<string>,
                         kind: Option<KnowledgeType>): seq<KnowledgeItem> {
    Filter(items, (item: KnowledgeItem) => Shown(item, query, category, kind))
  }

  /** The shown items are, in their order, exactly those that pass all three
      tests. */
  lemma FilteredItemsSpec(items: seq<KnowledgeItem>, query: string, category: Option<string>, kind: Option<KnowledgeType>)
    ensures IsSubseq(FilteredItems(items, query, category, kind), items)
    ensures forall item :: item in FilteredItems(items, query, category, kind) <==>
              item in items && Shown(item, query, category, kind)
  {
    FilterSpec(items, (item: KnowledgeItem) => Shown(item, query, category, kind));
  }

  /** With no search and no filters every item is shown. */
  lemma NoFiltersShowAll(items: seq<KnowledgeItem>)
    ensures FilteredItems(items, "", None, None) == items
  {
    FilterAll(items, (item: KnowledgeItem) => Shown(item, "", None, None));
  }

  function CategoriesOf(items: seq<KnowledgeItem>): (r: seq<string>)
    ensures |r| == |items| && forall i :: 0 <= i < |items| ==> r[i] == items[i].category
  {
    seq(|items|, i requires 0 <= i < |items| => items[i].category)
  }

  /** `categories`: the distinct categories in order of first use. */
  function Categories(items: seq<KnowledgeItem>): seq<string> {
    Dedup(CategoriesOf(items))
  }

  /** Every item's category is listed once, and nothing else is, in order of
      first use. */
  lemma CategoriesSpec(items: seq<KnowledgeItem>)
    ensures NoDup(Categories(items))
    ensures forall c :: c in Categories(items) <==> exists i :: 0 <= i < |items| && items[i].category == c
    ensures forall c :: c in Categories(items) ==> c in CategoriesOf(items)
    ensures forall i, j :: 0 <= i < j < |Categories(items)| ==>
              FirstIndex(CategoriesOf(items), Categories(items)[i]) < FirstIndex(CategoriesOf(items), Categories(items)[j])
  {
    var cs := CategoriesOf(items);
    DedupSpec(cs);
    forall c
      ensures c in Categories(items) <==> exists i :: 0 <= i < |items| && items[i].category == c
    {
      if c in cs {
        var i :| 0 <= i < |cs| && cs[i] == c;
        assert items[i].category == c;
      }
      if exists i :: 0 <= i < |items| && items[i].category == c {
        var i :| 0 <= i < |items| && items[i].category == c;
        assert cs[i] == c;
      }
    }
  }

  /** `handleUpdateItem`: every item carrying the updated item's id is
      replaced by it. */
  function Updated(items: seq<KnowledgeItem>, updated: KnowledgeItem): (r: seq<KnowledgeItem>)
    ensures |r| == |items|
    ensures forall i :: 0 <= i < |items| ==> r[i] == (if items[i].id == updated.id then updated else items[i])
  {
    seq(|items|, i requires 0 <= i < |items| => if items[i].id == updated.id then updated else items[i])
  }

  /** Updating twice with the same item is updating once, and an unknown id
      changes nothing. */
  lemma UpdatedProperties(items: seq<KnowledgeItem>, updated: KnowledgeItem)
    ensures Updated(Updated(items, updated), updated) == Updated(items, updated)
    ensures (forall i :: 0 <= i < |items| ==> items[i].id != updated.id) ==> Updated(items, updated) == items
  {
  }

  /** The add form's required fields: none may be empty (blanks pass). */
  predicate FormComplete(title: string, content: string, category: string) {
    title != "" && content != "" && category != ""
  }

  /** `currentUser?.name || "Admin"` */
  function AuthorOf(user: Option<User>): (r: string)
    ensures user.Some? && user.value.name != "" ==> r == user.value.name
    ensures user.None? || user.value.name == "" ==> r == "Admin"
  {
    if user.Some? && user.value.name != "" then user.value.name else "Admin"
  }

  /** The document `handleAddItem` builds at instant `nowMs`. */
  function NewItem(nowMs: int, title: string, content: string, kind: KnowledgeType, category: string,
                   department: Option<string>, user: Option<User>): (item: KnowledgeItem)
    ensures item.id == "kb-" + IntToString(nowMs) && item.createdAt == nowMs
    ensures item.title == title && item.content == content && item.kind == kind
    ensures item.category == category && item.department == department && item.createdBy == AuthorOf(user)
    ensures item.updatedAt.None? && item.attachments.None?
  {
    KnowledgeItem("kb-" + IntToString(nowMs), title, content, kind, department, category,
      AuthorOf(user), nowMs, None, None)
  }

  /** After an add the new document's category is offered, and no category
      offered before is lost. */
  lemma AddedCategoryListed(item: KnowledgeItem, items: seq<KnowledgeItem>)
    ensures item.category in Categories([item] + items)
    ensures forall c :: c in Categories(items) ==> c in Categories([item] + items)
  {
    CategoriesSpec([item] + items);
    CategoriesSpec(items);
    forall c | c in Categories(items)
      ensures c in Categories([item] + items)
    {
      var i :| 0 <= i < |items| && items[i].category == c;
      assert ([item] + items)[i + 1].category == c;
    }
    assert ([item] + items)[0].category == item.category;
  }

  class KnowledgeBase {
    var items: seq<KnowledgeItem>
    var searchQuery: string
    var categoryFilter: Option<string>
    var typeFilter: Option<KnowledgeType>
    var isAddingItem: bool
    /** The add form. */
    var newTitle: string
    var newContent: string
    var newKind: KnowledgeType
    var newCategory: string
    var newDepartment: Option<string>

    /** The form as it starts and as every successful add leaves it. */
    predicate FormReset()
      reads this
    {
      newTitle == "" && newContent == "" && newKind == Guide && newCategory == "" && newDepartment.None?
    }

    constructor (initial: seq<KnowledgeItem>)
      ensures items == initial && searchQuery == "" && categoryFilter.None? && typeFilter.None?
      ensures !isAddingItem && FormReset()
    {
      items, searchQuery, categoryFilter, typeFilter := initial, "", None, None;
      isAddingItem := false;
      newTitle, newContent, newKind, newCategory, newDepartment := "", "", Guide, "", None;
    }

    /** The shown list. */
    function ShownItems(): seq<KnowledgeItem>
      reads this
    {
      FilteredItems(items, searchQuery, categoryFilter, typeFilter)
    }

    method SetSearchQuery(query: string)
      modifies this
      ensures searchQuery == query && items == old(items)
      ensures categoryFilter == old(categoryFilter) && typeFilter == old(typeFilter)
      ensures isAddingItem == old(isAddingItem) && newTitle == old(newTitle) && newContent == old(newContent)
      ensures newKind == old(newKind) && newCategory == old(newCategory)
      ensures newDepartment == old(newDepartment)
    {
      searchQuery := query;
    }

    /** The category selector: its empty option clears the filter. */
    method SelectCategory(value: string)
      modifies this
      ensures categoryFilter == (if value == "" then None else Some(value))
      ensures items == old(items) && searchQuery == old(searchQuery) && typeFilter == old(typeFilter)
      ensures isAddingItem == old(isAddingItem) && newTitle == old(newTitle) && newContent == old(newContent)
      ensures newKind == old(newKind) && newCategory == old(newCategory)
      ensures newDepartment == old(newDepartment)
    {
      categoryFilter := if value == "" then None else Some(value);
    }

    /** The type selector; `None` is its empty option. */
    method SelectType(value: Option<KnowledgeType>)
      modifies this
      ensures typeFilter == value
      ensures items == old(items) && searchQuery == old(searchQuery) && categoryFilter == old(categoryFilter)
      ensures isAddingItem == old(isAddingItem) && newTitle == old(newTitle) && newContent == old(newContent)
      ensures newKind == old(newKind) && newCategory == old(newCategory)
      ensures newDepartment == old(newDepartment)
    {
      typeFilter := value;
    }

    /** Typing in the add form or choosing its type and department. */
    method EditForm(title: string, content: string, kind: KnowledgeType, category: string, department: Option<string>)
      modifies this
      ensures newTitle == title && newContent == content && newKind == kind
      ensures newCategory == category && newDepartment == department
      ensures items == old(items) && isAddingItem == old(isAddingItem)
      ensures searchQuery == old(searchQuery) && categoryFilter == old(categoryFilter)
      ensures typeFilter == old(typeFilter)
    {
      newTitle, newContent, newKind, newCategory, newDepartment := title, content, kind, category, department;
    }

    /** The dialog's open state. */
    method SetAddingItem(open: bool)
      modifies this
      ensures isAddingItem == open && items == old(items)
      ensures newTitle == old(newTitle) && newContent == old(newContent) && newCategory == old(newCategory)
      ensures searchQuery == old(searchQuery) && categoryFilter == old(categoryFilter)
      ensures typeFilter == old(typeFilter) && newKind == old(newKind) && newDepartment == old(newDepartment)
    {
      isAddingItem := open;
    }

    method UpdateItem(updated: KnowledgeItem)
      modifies this
      ensures items == Updated(old(items), updated)
      ensures searchQuery == old(searchQuery) && categoryFilter == old(categoryFilter)
      ensures typeFilter == old(typeFilter)
      ensures isAddingItem == old(isAddingItem) && newTitle == old(newTitle) && newContent == old(newContent)
      ensures newKind == old(newKind) && newCategory == old(newCategory)
      ensures newDepartment == old(newDepartment)
    {
      items := Updated(items, updated);
    }

    /** `handleAddItem` at instant `nowMs` for the signed-in `user`: an
      incomplete form is refused and nothing changes; otherwise the new
      document goes first, the dialog closes and the form is reset. */
    method AddItem(nowMs: int, user: Option<User>) returns (added: bool)
      modifies this
      ensures added <==> FormComplete(old(newTitle), old(newContent), old(newCategory))
      ensures !added ==> items == old(items) && isAddingItem == old(isAddingItem)
                         && newTitle == old(newTitle) && newContent == old(newContent)
                         && newCategory == old(newCategory) && newKind == old(newKind)
                         && newDepartment == old(newDepartment)
      ensures added ==> items == [NewItem(nowMs, old(newTitle), old(newContent), old(newKind), old(newCategory),
                                          old(newDepartment), user)] + old(items)
                        && !isAddingItem && FormReset()
      ensures searchQuery == old(searchQuery) && categoryFilter == old(categoryFilter)
      ensures typeFilter == old(typeFilter)
    {
      if !FormComplete(newTitle, newContent, newCategory) {
        return false;
      }
      items := [NewItem(nowMs, newTitle, newContent, newKind, newCategory, newDepartment, user)] + items;
      isAddingItem := false;
      newTitle, newContent, newKind, newCategory, newDepartment := "", "", Guide, "", None;
      return true;
    }
  }
}

/** The team members' knowledge base (src/pages/team/TeamKnowledgeBase.tsx):
    the administrators' search and filters over a fixed list, and in
    addition a sections rule that hides documents of departments outside the
    signed-in user's sections. */
module TeamKnowledgeBase {
  import opened Common
  import opened Types
  import KnowledgeBase

  /** The sections rule: a document with no department, or an empty one, is
      for everyone, and so is every document for a user who has no section
      list; otherwise its department must be one of the user's sections. An
      empty section list is still a list. */
  predicate SectionVisible(item: KnowledgeItem, user: Option<User>) {
    item.department.None? || item.department.value == ""
    || user.None? || user.value.sections.None?
    || item.department.value in user.value.sections.value
  }

  predicate TeamShown(item: KnowledgeItem, query: string, category: Option<string>,
                      kind: Option<KnowledgeType>, user: Option<User>) {
    KnowledgeBase.Shown(item, query, category, kind) && SectionVisible(item, user)
  }

  function FilteredItems(items: seq<KnowledgeItem>, query: string, category: Option<string>,
                         kind: Option<KnowledgeType>, user: Option<User>): seq<KnowledgeItem> {
    Filter(items, (item: KnowledgeItem) => TeamShown(item, query, category, kind, user))
  }

  /** The team sees, in order, exactly what the administrators' filters show
      that the sections rule lets through. */
  lemma TeamIsAdminThenSections(items: seq<KnowledgeItem>, query: string, category: Option<string>,
                                kind: Option<KnowledgeType>, user: Option<User>)
    ensures FilteredItems(items, query, category, kind, user)
         == Filter(KnowledgeBase.FilteredItems(items, query, category, kind),
                   (item: KnowledgeItem) => SectionVisible(item, user))
  {
    FilterFilter(items,
      (item: KnowledgeItem) => KnowledgeBase.Shown(item, query, category, kind),
      (item: KnowledgeItem) => SectionVisible(item, user),
      (item: KnowledgeItem) => TeamShown(item, query, category, kind, user));
  }

  /** The shown list keeps the fixed list's order and holds exactly the
      documents that pass the four tests. */
  lemma FilteredItemsSpec(items: seq<KnowledgeItem>, query: string, category: Option<string>,
                          kind: Option<KnowledgeType>, user: Option<User>)
    ensures IsSubseq(FilteredItems(items, query, category, kind, user), items)
    ensures forall item :: item in FilteredItems(items, query, category, kind, user) <==>
              item in items && TeamShown(item, query, category, kind, user)
  {
    FilterSpec(items, (item: KnowledgeItem) => TeamShown(item, query, category, kind, user));
  }

  /** A user without a section list sees what an administrator sees. */
  lemma NoSectionsSeesAll(items: seq<KnowledgeItem>, query: string, category: Option<string>,
                          kind: Option<KnowledgeType>, user: Option<User>)
    requires user.None? || user.value.sections.None?
    ensures FilteredItems(items, query, category, kind, user) == KnowledgeBase.FilteredItems(items, query, category, kind)
  {
    TeamIsAdminThenSections(items, query, category, kind, user);
    FilterAll(KnowledgeBase.FilteredItems(items, query, category, kind),
      (item: KnowledgeItem) => SectionVisible(item, user));
  }

  /** A user whose section list is empty sees only the documents without a
      department. */
  lemma EmptySectionsSeeGeneralOnly(item: KnowledgeItem, user: User)
    requires user.sections == Some([])
    ensures SectionVisible(item, Some(user)) <==> item.department.None? || item.department.value == ""
  {
  }
}

/**
 Searching the cached conversation names: `lower` on both sides of a LIKE, one
 tenant's rows only, in alphabetical order.
 */
module ChatNames {
  import opened Text
  import opened Sorting
  import opened Conversations
  import Like

  predicate NameBefore(a: ChatName, b: ChatName) {
    Less(a.name, b.name) || (a.name == b.name && Less(a.chat, b.chat))
  }

  function NameHit(tenant: string, query: string): ChatName -> bool {
    (n: ChatName) => n.tenant == tenant && Like.Like(Lower(Like.SubstringPattern(query)), Lower(n.name))
  }

  function NamesFound(names: seq<ChatName>, tenant: string, query: string): seq<ChatName> {
    Sort(Filter(NameHit(tenant, query), names), NameBefore)
  }

  function SearchNames(names: seq<ChatName>, tenant: string, query: string, limit: int): seq<ChatName> {
    var trimmed := TrimSpace(query);
    if trimmed == "" then [] else Limit(NamesFound(names, tenant, trimmed), NormalizeLimit(limit))
  }

  /** Before the limit: exactly the tenant's names that contain the query literally up to ASCII
      case, each once, in order of name and then address. */
  lemma SearchFindsNames(names: seq<ChatName>, tenant: string, query: string, n: ChatName)
    requires ValidNames(names)
    ensures n in NamesFound(names, tenant, query) <==> n in names && n.tenant == tenant && ContainsFold(n.name, query)
    ensures Sorted(NamesFound(names, tenant, query), NameBefore)
    ensures Permutation(NamesFound(names, tenant, query), Filter(NameHit(tenant, query), names))
  {
    var hits := Filter(NameHit(tenant, query), names);
    SortMember(hits, NameBefore, n);
    FilterMember(NameHit(tenant, query), names, n);
    Like.FoldedNameSearchIsLiteral(query, n.name);
    forall a, b | a in hits && b in hits ensures a.tenant == b.tenant == tenant {
      FilterMember(NameHit(tenant, query), names, a);
      FilterMember(NameHit(tenant, query), names, b);
    }
    NamesAreOrdered(hits, tenant);
    SortIsSorted(hits, NameBefore);
  }

  lemma NamesAreOrdered(names: seq<ChatName>, tenant: string)
    requires forall n :: n in names ==> n.tenant == tenant
    ensures Orders(NameBefore, names)
  {
    forall a, b, c | a in names && b in names && c in names
      ensures a == b || NameBefore(a, b) || NameBefore(b, a)
      ensures NameBefore(a, b) ==> !NameBefore(b, a)
      ensures NameBefore(a, b) && NameBefore(b, c) ==> NameBefore(a, c) {
      LessIsTotal(a.name, b.name);
      LessIsTotal(a.chat, b.chat);
      if Less(a.name, b.name) && Less(b.name, c.name) {
        LessIsTransitive(a.name, b.name, c.name);
      }
      if Less(a.chat, b.chat) && Less(b.chat, c.chat) {
        LessIsTransitive(a.chat, b.chat, c.chat);
      }
    }
  }
}

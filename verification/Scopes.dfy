/**
 The scopes of a tenant key: what a grant permits, and the comma-separated text
 it is stored as. A key must mean the same before and after it is stored.
 */
module Scopes {
  import opened Text

  const WILDCARD := "*"
  const SEPARATOR := ','

  datatype Scope = Scope(resource: string, action: string)

  /** "resource:action" with both halves present. */
  function SplitScope(scope: string): Option<Scope> {
    var colon := IndexOf(scope, ':');
    if colon <= 0 || colon == |scope| - 1 then None
    else Some(Scope(scope[..colon], scope[colon + 1..]))
  }

  predicate KnownAction(resource: string, action: string) {
    || (resource == "messages" && (action == "send" || action == "read"))
    || (resource == "media" && (action == "read" || action == "write"))
    || (resource == "sessions" && action == "read")
  }

  predicate KnownResource(resource: string) {
    resource == "messages" || resource == "media" || resource == "sessions"
  }

  /** A scope the gateway understands, once trimmed. */
  predicate Understood(scope: string) {
    || scope == "" || scope == WILDCARD
    || (SplitScope(scope).Some?
        && var s := SplitScope(scope).value;
           KnownResource(s.resource) && (s.action == WILDCARD || KnownAction(s.resource, s.action)))
  }

  method ValidateScopes(scopes: seq<string>) returns (valid: bool)
    ensures valid <==> forall s :: s in scopes ==> Understood(TrimSpace(s))
  {
    for i := 0 to |scopes|
      invariant forall k :: 0 <= k < i ==> Understood(TrimSpace(scopes[k]))
    {
      var scope := scopes[i];
      if !Understood(TrimSpace(scope)) {
        assert scope in scopes;
        return false;
      }
    }
    return true;
  }

  // ------------------------------------------------------------------- granting

  /** What can be required names a resource and an action, without wildcards. */
  predicate Requirable(required: string) {
    required != "" && '*' !in required && SplitScope(required).Some?
  }

  /** One trimmed grant satisfies one concrete requirement. */
  predicate Grants(grant: string, required: string)
    requires Requirable(required)
  {
    || grant == WILDCARD || grant == required
    || (SplitScope(grant).Some?
        && SplitScope(grant).value.action == WILDCARD
        && SplitScope(grant).value.resource == SplitScope(required).value.resource)
  }

  /** One entry of the list, as it was written, satisfies the requirement. */
  predicate Satisfies(entry: string, required: string)
    requires Requirable(required)
  {
    TrimSpace(entry) != "" && Grants(TrimSpace(entry), required)
  }

  ghost predicate Permits(granted: seq<string>, required: string) {
    var r := TrimSpace(required);
    Requirable(r) && exists g :: g in granted && Satisfies(g, r)
  }

  method HasScope(granted: seq<string>, required: string) returns (allowed: bool)
    ensures allowed <==> Permits(granted, required)
  {
    var r := TrimSpace(required);
    if !Requirable(r) { return false; }
    var wanted := SplitScope(r).value.resource;
    for i := 0 to |granted|
      invariant forall k :: 0 <= k < i ==> !Satisfies(granted[k], r)
    {
      var g := TrimSpace(granted[i]);
      if g == "" { continue; }
      if g == WILDCARD || g == r {
        assert granted[i] in granted && Satisfies(granted[i], r);
        return true;
      }
      var split := SplitScope(g);
      if split.Some? && split.value.action == WILDCARD && split.value.resource == wanted {
        assert granted[i] in granted && Satisfies(granted[i], r);
        return true;
      }
    }
    return false;
  }

  // -------------------------------------------------------------------- storage

  /** Trimmed, without blanks and repetitions, in order of first appearance. */
  function ParseParts(parts: seq<string>): seq<string> {
    if parts == [] then []
    else
      var sofar := ParseParts(parts[..|parts| - 1]);
      var part := TrimSpace(parts[|parts| - 1]);
      if part == "" || part in sofar then sofar else sofar + [part]
  }

  method ParseScopes(raw: string) returns (out: seq<string>)
    ensures out == ParseParts(Split(raw, SEPARATOR))
  {
    var parts := Split(raw, SEPARATOR);
    out := [];
    var seen: set<string> := {};
    for i := 0 to |parts|
      invariant out == ParseParts(parts[..i])
      invariant forall s :: s in seen <==> s in out
    {
      assert parts[..i + 1][..i] == parts[..i];
      var part := TrimSpace(parts[i]);
      if part != "" && part !in seen {
        seen := seen + {part};
        out := out + [part];
      }
    }
    assert parts[..|parts|] == parts;
  }

  function Kept(scopes: seq<string>): seq<string> {
    if scopes == [] then []
    else
      var s := TrimSpace(scopes[|scopes| - 1]);
      Kept(scopes[..|scopes| - 1]) + if s == "" then [] else [s]
  }

  function Format(scopes: seq<string>): string { Join(Kept(scopes), SEPARATOR) }

  method FormatScopes(scopes: seq<string>) returns (text: string)
    ensures text == Format(scopes)
  {
    var kept := [];
    for i := 0 to |scopes|
      invariant kept == Kept(scopes[..i])
    {
      assert scopes[..i + 1][..i] == scopes[..i];
      var s := TrimSpace(scopes[i]);
      if s != "" { kept := kept + [s]; }
    }
    assert scopes[..|scopes|] == scopes;
    text := Join(kept, SEPARATOR);
  }

  /** What the key carries after a trip through storage. */
  function Restored(scopes: seq<string>): seq<string> {
    ParseParts(Split(Format(scopes), SEPARATOR))
  }

  // ----------------------------------------------------------------- round trips

  /** Some entry of the list reads as `x` once trimmed. */
  ghost predicate Lists(scopes: seq<string>, x: string) {
    exists s :: s in scopes && TrimSpace(s) == x
  }

  lemma ListsLast(init: seq<string>, last: string, x: string)
    ensures Lists(init + [last], x) <==> Lists(init, x) || TrimSpace(last) == x
  {
    assert last in init + [last];
    if Lists(init, x) {
      var s :| s in init && TrimSpace(s) == x;
      assert s in init + [last];
    }
  }

  lemma {:induction false} ParsedMember(parts: seq<string>, x: string)
    ensures x in ParseParts(parts) <==> x != "" && Lists(parts, x)
  {
    if parts != [] {
      var init, last := parts[..|parts| - 1], parts[|parts| - 1];
      assert parts == init + [last];
      ParsedMember(init, x);
      ListsLast(init, last, x);
    }
  }

  lemma {:induction false} KeptMember(scopes: seq<string>, x: string)
    ensures x in Kept(scopes) <==> x != "" && Lists(scopes, x)
  {
    if scopes != [] {
      var init, last := scopes[..|scopes| - 1], scopes[|scopes| - 1];
      assert scopes == init + [last];
      KeptMember(init, x);
      ListsLast(init, last, x);
    }
  }

  lemma SplitScopeJoins(scope: string)
    requires SplitScope(scope).Some?
    ensures scope == SplitScope(scope).value.resource + ":" + SplitScope(scope).value.action
  {
  }

  /** No understood scope holds the separator. */
  lemma UnderstoodHasNoComma(scope: string)
    requires Understood(scope)
    ensures SEPARATOR !in scope
  {
    if SplitScope(scope).Some? {
      SplitScopeJoins(scope);
      NamesHaveNoComma(SplitScope(scope).value.resource, SplitScope(scope).value.action);
    }
  }

  lemma NamesHaveNoComma(resource: string, action: string)
    ensures KnownResource(resource) ==> SEPARATOR !in resource
    ensures KnownAction(resource, action) ==> SEPARATOR !in action
  {
  }

  /** Splitting the stored text gives back the kept scopes. */
  lemma FormatSplits(scopes: seq<string>)
    requires forall x :: x in Kept(scopes) ==> SEPARATOR !in x
    ensures Split(Format(scopes), SEPARATOR) == if Kept(scopes) == [] then [""] else Kept(scopes)
  {
    if Kept(scopes) != [] {
      SplitJoin(Kept(scopes), SEPARATOR);
    } else {
      assert IndexOf("", SEPARATOR) < 0;
    }
  }

  /** Storage neither adds nor loses a scope of a list that validation accepts. */
  lemma RestoredMember(scopes: seq<string>, x: string)
    requires forall s :: s in scopes ==> Understood(TrimSpace(s))
    ensures x in Restored(scopes) <==> x != "" && Lists(scopes, x)
  {
    var kept := Kept(scopes);
    forall k | k in kept ensures SEPARATOR !in k && TrimSpace(k) == k {
      KeptMember(scopes, k);
      UnderstoodHasNoComma(k);
    }
    FormatSplits(scopes);
    KeptMember(scopes, x);
    ParsedMember(Split(Format(scopes), SEPARATOR), x);
    if x in kept {
      assert Lists(kept, x);
    }
  }

  /** A valid key permits exactly the same after it was stored. */
  lemma StoragePreservesPermission(scopes: seq<string>, required: string)
    requires forall s :: s in scopes ==> Understood(TrimSpace(s))
    ensures Permits(Restored(scopes), required) <==> Permits(scopes, required)
  {
    var r := TrimSpace(required);
    if Requirable(r) {
      if g :| g in scopes && Satisfies(g, r) {
        RestoredMember(scopes, TrimSpace(g));
        assert TrimSpace(TrimSpace(g)) == TrimSpace(g);
      }
      if g :| g in Restored(scopes) && Satisfies(g, r) {
        RestoredMember(scopes, g);
      }
    }
  }

  /** What ParseScopes can answer: trimmed, not blank, without commas and without repetition. */
  ghost predicate Canonical(scopes: seq<string>) {
    && (forall s :: s in scopes ==> s != "" && Trimmed(s) && SEPARATOR !in s)
    && (forall i, j :: 0 <= i < j < |scopes| ==> scopes[i] != scopes[j])
  }

  lemma {:induction false} ParsedIsCanonical(parts: seq<string>)
    requires forall p :: p in parts ==> SEPARATOR !in p
    ensures Canonical(ParseParts(parts))
  {
    if parts != [] {
      assert parts[|parts| - 1] in parts;
      ParsedIsCanonical(parts[..|parts| - 1]);
    }
  }

  lemma CanonicalInit(scopes: seq<string>)
    requires scopes != [] && Canonical(scopes)
    ensures Canonical(scopes[..|scopes| - 1])
  {
    var init := scopes[..|scopes| - 1];
    forall s | s in init ensures s != "" && Trimmed(s) && SEPARATOR !in s {
      assert s in scopes;
    }
  }

  lemma {:induction false} CanonicalIsKept(scopes: seq<string>)
    requires Canonical(scopes)
    ensures Kept(scopes) == scopes && ParseParts(scopes) == scopes
  {
    if scopes != [] {
      var init, last := scopes[..|scopes| - 1], scopes[|scopes| - 1];
      assert scopes == init + [last];
      assert last in scopes && last !in init;
      CanonicalInit(scopes);
      CanonicalIsKept(init);
    }
  }

  /** Parsing what was formatted gives back any list that parsing can give. */
  lemma ParseAfterFormatIsIdentity(raw: string)
    ensures var parsed := ParseParts(Split(raw, SEPARATOR)); Restored(parsed) == parsed
  {
    var parsed := ParseParts(Split(raw, SEPARATOR));
    ParsedIsCanonical(Split(raw, SEPARATOR));
    CanonicalIsKept(parsed);
    FormatSplits(parsed);
    if parsed == [] {
      assert ParseParts([""]) == [] by { assert [""][..0] == []; }
    }
  }
}

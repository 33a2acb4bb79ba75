/**
 One person can be written four ways: by phone number, by LID, and by either of
 them with a device. The repository folds the three together in
 three places written separately: when a row is written (`CanonicalJid`), when
 rows are read (`Projected`, `Aliases`) and in a one-off repair (`Repaired`).
 This module holds the three folds and the proofs of when they agree.
 */
module Addresses {
  import opened Text

  const PHONE := "s.whatsapp.net"
  const LID := "lid"

  // ------------------------------------------------------------ address strings

  datatype Named = Named(user: string, server: string)

  /** A bare user part, as both columns of the LID index hold it. */
  predicate Bare(user: string) {
    user != "" && '@' !in user && ':' !in user
  }

  function Render(user: string, server: string): string {
    user + "@" + server
  }

  /** A user part without its device. */
  function BeforeColon(user: string): string {
    var colon := IndexOf(user, ':');
    if colon >= 0 then user[..colon] else user
  }

  /** Takes an address apart, dropping any device; `None` when it is not an address. */
  function SplitAddress(address: string): (r: Option<Named>)
    ensures r.Some? ==> Bare(r.value.user) && r.value.server != ""
  {
    var at := IndexOf(address, '@');
    if at <= 0 || at == |address| - 1 then None
    else
      var bare := BeforeColon(address[..at]);
      if bare == "" then None else Some(Named(bare, address[at + 1..]))
  }

  function NonAD(address: string): string {
    match SplitAddress(address)
    case None => address
    case Some(n) => Render(n.user, n.server)
  }

  lemma SplitRender(user: string, server: string)
    requires Bare(user) && server != ""
    ensures SplitAddress(Render(user, server)) == Some(Named(user, server))
  {
    var a := Render(user, server);
    IndexOfFirst(user, '@', server);
    assert a[..|user|] == user && a[|user| + 1..] == server;
  }

  lemma NonADIsStable(address: string)
    ensures NonAD(NonAD(address)) == NonAD(address)
    ensures SplitAddress(NonAD(address)) == SplitAddress(address)
  {
    if SplitAddress(address).Some? {
      SplitRender(SplitAddress(address).value.user, SplitAddress(address).value.server);
    }
  }

  // ------------------------------------------------------------- the LID index

  /** A row of whatsmeow_lid_map: `lid` is its key and `pn` is unique. */
  datatype LidPair = LidPair(lid: string, pn: string)

  ghost predicate ValidIndex(index: seq<LidPair>) {
    && (forall p :: p in index ==> Bare(p.lid) && Bare(p.pn))
    && (forall i, j :: 0 <= i < j < |index| ==> index[i].lid != index[j].lid && index[i].pn != index[j].pn)
  }

  /** SELECT pn WHERE lid = ? */
  function NumberOf(index: seq<LidPair>, lid: string): (r: Option<string>)
    ensures r.Some? ==> LidPair(lid, r.value) in index
    ensures r.None? ==> forall p :: p in index ==> p.lid != lid
  {
    if index == [] then None
    else if index[0].lid == lid then Some(index[0].pn)
    else NumberOf(index[1..], lid)
  }

  /** SELECT lid WHERE pn = ? */
  function LidOf(index: seq<LidPair>, pn: string): (r: Option<string>)
    ensures r.Some? ==> LidPair(r.value, pn) in index
    ensures r.None? ==> forall p :: p in index ==> p.pn != pn
  {
    if index == [] then None
    else if index[0].pn == pn then Some(index[0].lid)
    else LidOf(index[1..], pn)
  }

  lemma PairsAreUnique(index: seq<LidPair>, p: LidPair, q: LidPair)
    requires ValidIndex(index) && p in index && q in index
    ensures (p.lid == q.lid) <==> (p.pn == q.pn)
    ensures p.lid == q.lid ==> p == q
  {
    var i :| 0 <= i < |index| && index[i] == p;
    var j :| 0 <= j < |index| && index[j] == q;
    assert i < j || j < i || i == j;
  }

  // ------------------------------------------- the read-time fold: projection

  /** The rows of the index that `chat_jid = lid || '@lid'` matches. */
  function Matches(index: seq<LidPair>, address: string): seq<Option<string>> {
    if index == [] then []
    else (if address == Render(index[0].lid, LID) then [Some(index[0].pn)] else []) + Matches(index[1..], address)
  }

  /** What a LEFT JOIN with the index puts beside one row: one entry per match, or one NULL. */
  function LeftJoin(index: seq<LidPair>, address: string): (r: seq<Option<string>>)
    ensures r != []
  {
    var matched := Matches(index, address);
    if matched == [] then [None] else matched
  }

  /** coalesce(pn || '@s.whatsapp.net', address) */
  function Coalesce(joined: Option<string>, address: string): string {
    match joined
    case Some(pn) => Render(pn, PHONE)
    case None => address
  }

  /** The canonical projection of a stored address. */
  function Projected(index: seq<LidPair>, address: string): string {
    Coalesce(LeftJoin(index, address)[0], address)
  }

  /** The phone number the index knows for an address of the form `lid@lid`. */
  function KnownNumber(index: seq<LidPair>, address: string): Option<string> {
    match SplitAddress(address)
    case Some(n) => if address == Render(n.user, LID) then NumberOf(index, n.user) else None
    case None => None
  }

  /** On a one-to-one index the join neither drops nor repeats a row. */
  lemma LeftJoinIsOneRow(index: seq<LidPair>, address: string)
    requires ValidIndex(index)
    ensures LeftJoin(index, address) == [KnownNumber(index, address)]
  {
    MatchesAreUnique(index, address);
  }

  lemma {:induction false} MatchesAreUnique(index: seq<LidPair>, address: string)
    requires ValidIndex(index)
    ensures Matches(index, address) ==
            match KnownNumber(index, address) { case Some(pn) => [Some(pn)] case None => [] }
  {
    if index != [] {
      var first, rest := index[0], index[1..];
      assert first in index && forall p :: p in rest ==> p in index;
      MatchesAreUnique(rest, address);
      SplitRender(first.lid, LID);
      FirstIsAlone(index);
    }
  }

  lemma FirstIsAlone(index: seq<LidPair>)
    requires ValidIndex(index) && index != []
    ensures forall p :: p in index[1..] ==> p.lid != index[0].lid
  {
    forall p | p in index[1..] ensures p.lid != index[0].lid {
      var j :| 0 <= j < |index[1..]| && index[1..][j] == p;
      assert index[j + 1] == p;
    }
  }

  lemma ProjectedIs(index: seq<LidPair>, address: string)
    requires ValidIndex(index)
    ensures Projected(index, address) == Coalesce(KnownNumber(index, address), address)
  {
    LeftJoinIsOneRow(index, address);
  }

  /** Where readers look for an address they are asked for: the device goes, then the index is asked. */
  function ReadForm(index: seq<LidPair>, address: string): string {
    Projected(index, NonAD(address))
  }

  // ---------------------------------------------- the read-time fold: aliases

  /** The list a query is compared with: the asked address and the person's other one. */
  function Aliases(index: seq<LidPair>, query: string): seq<string> {
    var address := NonAD(query);
    match SplitAddress(address)
    case None => [address]
    case Some(n) =>
      if n.server == LID then
        match NumberOf(index, n.user) {
          case Some(pn) => if pn == "" then [address] else [address, Render(pn, PHONE)]
          case None => [address]
        }
      else if n.server == PHONE then
        match LidOf(index, n.user) {
          case Some(lid) => if lid == "" then [address] else [address, Render(lid, LID)]
          case None => [address]
        }
      else [address]
  }

  // ------------------------------------------------------- the write-time fold

  /** A parsed WhatsApp address; the empty one has no server. */
  datatype JID = JID(user: string, device: nat, server: string)

  const EMPTY_JID := JID("", 0, "")

  function ToNonAD(jid: JID): JID { JID(jid.user, 0, jid.server) }

  function JidString(jid: JID): string {
    if jid.device > 0 then Render(jid.user + ":" + Decimal(jid.device), jid.server)
    else if jid.user != "" then Render(jid.user, jid.server)
    else jid.server
  }

  /** The tenant's LID lookup: missing or failing, or answering from the index. */
  datatype Resolver = Unreachable | Index(pairs: seq<LidPair>)

  function GetNumber(lids: Resolver, lid: JID): Option<string> {
    match lids
    case Unreachable => None
    case Index(pairs) => NumberOf(pairs, lid.user)
  }

  datatype Canonical = Canonical(jid: JID, resolved: bool)

  /** What the write paths file under: a number if one can be had, and whether it could. */
  function CanonicalJid(lids: Resolver, jid: JID, alt: JID): Canonical {
    if jid.server == "" then Canonical(jid, true)
    else if jid.server != LID then Canonical(ToNonAD(jid), true)
    else if alt.server == PHONE && alt.user != "" then Canonical(ToNonAD(alt), true)
    else match GetNumber(lids, ToNonAD(jid))
      case Some(pn) => Canonical(JID(pn, 0, PHONE), true)
      case None => Canonical(ToNonAD(jid), false)
  }

  // ------------------------------------------------------ the 0003 SQL repair

  /** What 0003 writes for a bare user on a server. */
  function Rewritten(index: seq<LidPair>, bare: string, server: string): string {
    if server == LID then Coalesce(NumberOf(index, bare), Render(bare, LID)) else Render(bare, server)
  }

  /** The address 0003 rewrites a stored one to. */
  function Repaired(index: seq<LidPair>, address: string): string {
    var at := IndexOf(address, '@');
    var user := if at >= 0 then address[..at] else "";
    var server := if at >= 0 then address[at + 1..] else "";
    if server == "" then address else Rewritten(index, BeforeColon(user), server)
  }

  // ----------------------------------------------------------- where they agree

  /** The readers' form of an address is what the repair writes for its halves. */
  lemma ReadFormIs(index: seq<LidPair>, address: string)
    requires ValidIndex(index)
    ensures ReadForm(index, address) ==
            match SplitAddress(address) { case Some(n) => Rewritten(index, n.user, n.server) case None => address }
  {
    ProjectedIs(index, NonAD(address));
    NonADIsStable(address);
    if SplitAddress(address).Some? {
      var n := SplitAddress(address).value;
      assert Render(n.user, n.server) == Render(n.user, LID) <==> n.server == LID by {
        SplitRender(n.user, n.server);
        SplitRender(n.user, LID);
      }
      var pn := NumberOf(index, n.user);
      assert pn.Some? ==> Bare(pn.value);
    }
  }

  /** A stored row is found under its own address exactly when that carries no device. */
  lemma StoredReadsAsAsked(index: seq<LidPair>, address: string)
    requires ValidIndex(index)
    ensures Projected(index, address) == ReadForm(index, address) <==> NonAD(address) == address
  {
    ProjectedIs(index, address);
    ProjectedIs(index, NonAD(address));
    NonADIsStable(address);
    if NonAD(address) != address {
      var n := SplitAddress(address).value;
      ProjectedIsStable(index, NonAD(address));
    }
  }

  /** A projected address projects to itself, and stays free of a device. */
  lemma ProjectedIsStable(index: seq<LidPair>, address: string)
    requires ValidIndex(index)
    ensures Projected(index, Projected(index, address)) == Projected(index, address)
    ensures NonAD(address) == address ==> NonAD(Projected(index, address)) == Projected(index, address)
  {
    ProjectedIs(index, address);
    ProjectedIs(index, Projected(index, address));
    var pn := KnownNumber(index, address);
    if pn.Some? {
      assert Bare(pn.value);
      SplitRender(pn.value, PHONE);
      SplitRender(pn.value, LID);
    }
  }

  // ------------------------------------------------------------- an address, half by half

  lemma HalvesOf(address: string) returns (user: string, server: string)
    requires '@' in address
    ensures '@' !in user && address == Render(user, server)
  {
    var at := IndexOf(address, '@');
    user, server := address[..at], address[at + 1..];
    assert address == user + "@" + server;
  }

  lemma HalvesAre(user: string, server: string)
    requires '@' !in user
    ensures var a := Render(user, server);
            IndexOf(a, '@') == |user| && a[..|user|] == user && a[|user| + 1..] == server
  {
    IndexOfFirst(user, '@', server);
  }

  lemma RepairedOf(index: seq<LidPair>, user: string, server: string)
    requires '@' !in user
    ensures Repaired(index, Render(user, server)) ==
            if server == "" then Render(user, server) else Rewritten(index, BeforeColon(user), server)
  {
    HalvesAre(user, server);
  }

  lemma ReadFormOf(index: seq<LidPair>, user: string, server: string)
    requires ValidIndex(index) && '@' !in user
    ensures ReadForm(index, Render(user, server)) ==
            if server == "" || BeforeColon(user) == "" then Render(user, server)
            else Rewritten(index, BeforeColon(user), server)
  {
    HalvesAre(user, server);
    ReadFormIs(index, Render(user, server));
    assert user == "" ==> BeforeColon(user) == "";
  }

  /** An address whose user part is nothing but a device, such as ":5@x". */
  predicate HollowDevice(address: string) {
    address != "" && address[0] == ':' && 0 < IndexOf(address, '@') < |address| - 1
  }

  lemma HollowOf(user: string, server: string)
    requires '@' !in user
    ensures HollowDevice(Render(user, server)) <==> user != "" && server != "" && BeforeColon(user) == ""
  {
    HalvesAre(user, server);
    assert user != "" ==> Render(user, server)[0] == user[0];
  }

  /** The repair writes the readers' form of every address but the hollow ones. */
  lemma RepairIsReadForm(index: seq<LidPair>, address: string)
    requires ValidIndex(index)
    ensures Repaired(index, address) == ReadForm(index, address) <==> !HollowDevice(address)
  {
    if '@' in address {
      var user, server := HalvesOf(address);
      HollowOf(user, server);
      RepairedOf(index, user, server);
      ReadFormOf(index, user, server);
      if BeforeColon(user) == "" {
        assert NumberOf(index, "").None?;
        assert |Render(user, server)| == |user| + |Render("", server)|;
      }
    } else {
      ReadFormIs(index, address);
    }
  }

  /** The query aliases name exactly the addresses that project onto the readers' form of the query. */
  lemma AliasesAreTheConversation(index: seq<LidPair>, query: string, address: string)
    requires ValidIndex(index)
    ensures address in Aliases(index, query) <==> Projected(index, address) == ReadForm(index, query)
  {
    ReadFormIs(index, query);
    ProjectedIs(index, address);
    match SplitAddress(query) {
      case None => UnsplitAliases(index, query, address);
      case Some(n) =>
        SplitRender(n.user, n.server);
        if n.server == LID {
          LidAliases(index, n.user, address);
        } else if n.server == PHONE {
          PhoneAliases(index, n.user, address);
        } else {
          OtherAliases(index, n.user, n.server, address);
        }
    }
  }

  lemma UnsplitAliases(index: seq<LidPair>, query: string, address: string)
    requires ValidIndex(index) && SplitAddress(query).None?
    ensures address in Aliases(index, query) <==> Coalesce(KnownNumber(index, address), address) == query
  {
    if KnownNumber(index, address).Some? {
      SplitRender(KnownNumber(index, address).value, PHONE);
    }
  }

  lemma OtherAliases(index: seq<LidPair>, user: string, server: string, address: string)
    requires ValidIndex(index) && Bare(user) && server != "" && server != LID && server != PHONE
    ensures address in Aliases(index, Render(user, server)) <==>
            Coalesce(KnownNumber(index, address), address) == Render(user, server)
  {
    SplitRender(user, server);
    if KnownNumber(index, address).Some? {
      SplitRender(KnownNumber(index, address).value, PHONE);
    }
  }

  lemma LidAliases(index: seq<LidPair>, user: string, address: string)
    requires ValidIndex(index) && Bare(user)
    ensures address in Aliases(index, Render(user, LID)) <==>
            Coalesce(KnownNumber(index, address), address) == Coalesce(NumberOf(index, user), Render(user, LID))
  {
    LidAliasList(index, user);
    SplitRender(user, LID);
    var known := KnownNumber(index, address);
    if known.Some? {
      SplitRender(known.value, PHONE);
      if NumberOf(index, user).Some? {
        PairsAreUnique(index, LidPair(SplitAddress(address).value.user, known.value), LidPair(user, NumberOf(index, user).value));
      }
    }
    if NumberOf(index, user).Some? {
      SplitRender(NumberOf(index, user).value, PHONE);
    }
  }

  lemma LidAliasList(index: seq<LidPair>, user: string)
    requires ValidIndex(index) && Bare(user)
    ensures NumberOf(index, user).Some? ==> Bare(NumberOf(index, user).value)
    ensures Aliases(index, Render(user, LID)) ==
            match NumberOf(index, user) {
              case Some(number) => [Render(user, LID), Render(number, PHONE)]
              case None => [Render(user, LID)]
            }
  {
    SplitRender(user, LID);
  }

  lemma PhoneAliasList(index: seq<LidPair>, user: string)
    requires ValidIndex(index) && Bare(user)
    ensures Aliases(index, Render(user, PHONE)) ==
            match LidOf(index, user) {
              case Some(lid) => [Render(user, PHONE), Render(lid, LID)]
              case None => [Render(user, PHONE)]
            }
  {
    SplitRender(user, PHONE);
    if LidOf(index, user).Some? {
      assert Bare(LidPair(LidOf(index, user).value, user).lid);
    }
  }

  lemma PhoneAliases(index: seq<LidPair>, user: string, address: string)
    requires ValidIndex(index) && Bare(user)
    ensures address in Aliases(index, Render(user, PHONE)) <==>
            Coalesce(KnownNumber(index, address), address) == Render(user, PHONE)
  {
    PhoneAliasList(index, user);
    KnownOfNumber(index, user, address);
    if LidOf(index, user).Some? {
      KnownOfLid(index, LidOf(index, user).value, user);
    }
  }

  lemma KnownOfLid(index: seq<LidPair>, lid: string, number: string)
    requires ValidIndex(index) && LidPair(lid, number) in index
    ensures KnownNumber(index, Render(lid, LID)) == Some(number)
  {
    SplitRender(lid, LID);
    NumberOfPair(index, LidPair(lid, number));
  }

  /** What projects to a number is the number's own address or the address of its LID. */
  lemma KnownOfNumber(index: seq<LidPair>, user: string, address: string)
    requires ValidIndex(index) && Bare(user)
    ensures Coalesce(KnownNumber(index, address), address) == Render(user, PHONE) ==>
              address == Render(user, PHONE) || (LidOf(index, user).Some? && address == Render(LidOf(index, user).value, LID))
    ensures KnownNumber(index, Render(user, PHONE)).None?
  {
    SplitRender(user, PHONE);
    var known := KnownNumber(index, address);
    if known.Some? {
      SplitRender(known.value, PHONE);
      KnownIsUnique(index, address, user);
    }
  }

  /** The index knows `user` for an address exactly when it is the address of its LID. */
  lemma KnownIsUnique(index: seq<LidPair>, address: string, user: string)
    requires ValidIndex(index) && KnownNumber(index, address).Some?
    ensures KnownNumber(index, address).value == user ==>
              LidOf(index, user).Some? && address == Render(LidOf(index, user).value, LID)
  {
    var pair := LidPair(SplitAddress(address).value.user, KnownNumber(index, address).value);
    assert pair in index;
    if pair.pn == user {
      PairsAreUnique(index, pair, LidPair(LidOf(index, user).value, user));
    }
  }

  lemma RepairedRender(index: seq<LidPair>, bare: string, server: string)
    requires '@' !in bare && ':' !in bare && server != ""
    ensures Repaired(index, Render(bare, server)) == Rewritten(index, bare, server)
  {
    var a := Render(bare, server);
    IndexOfFirst(bare, '@', server);
    assert a[..|bare|] == bare && a[|bare| + 1..] == server;
  }

  lemma RepairedForm(index: seq<LidPair>, address: string) returns (bare: string, server: string)
    ensures '@' !in bare && ':' !in bare
    ensures Repaired(index, address) == if server == "" then address else Rewritten(index, bare, server)
    ensures server == "" ==> SplitAddress(address).None? && !HollowDevice(address)
  {
    bare, server := "", "";
    if '@' in address {
      var user;
      user, server := HalvesOf(address);
      HalvesAre(user, server);
      RepairedOf(index, user, server);
      bare := BeforeColon(user);
    }
  }

  lemma RewrittenStays(index: seq<LidPair>, bare: string, server: string)
    requires ValidIndex(index) && '@' !in bare && ':' !in bare && server != ""
    ensures Repaired(index, Rewritten(index, bare, server)) == Rewritten(index, bare, server)
  {
    RepairedRender(index, bare, server);
    if server == LID && NumberOf(index, bare).Some? {
      RepairedRender(index, NumberOf(index, bare).value, PHONE);
    }
  }

  /** Repairing a repaired address changes nothing. */
  lemma RepairIsIdempotent(index: seq<LidPair>, address: string)
    requires ValidIndex(index)
    ensures Repaired(index, Repaired(index, address)) == Repaired(index, address)
  {
    var bare, server := RepairedForm(index, address);
    if server != "" {
      RewrittenStays(index, bare, server);
    }
  }

  /** A stored address that carries no device suffix, hollow or not. */
  predicate DeviceFree(address: string) {
    NonAD(address) == address && !HollowDevice(address)
  }

  /** On a device-free address the repair is the read-time projection, made permanent. */
  lemma RepairIsProjection(index: seq<LidPair>, address: string)
    requires ValidIndex(index) && DeviceFree(address)
    ensures Repaired(index, address) == Projected(index, address)
    ensures Projected(index, Repaired(index, address)) == Projected(index, address)
  {
    RepairIsReadForm(index, address);
    StoredReadsAsAsked(index, address);
    ProjectedIsStable(index, address);
  }

  // -------------------------------------------------------- a growing LID index

  /** The halves of a parsed address never hold the separator. */
  predicate WellFormed(jid: JID) {
    '@' !in jid.user && '@' !in jid.server
  }

  /** The alternative an event carried names the same person the index ends up naming. */
  predicate Agrees(final: seq<LidPair>, jid: JID, alt: JID) {
    jid.server == LID && alt.server == PHONE && alt.user != "" ==> LidPair(jid.user, alt.user) in final
  }

  /** What is known now is still known in the end. */
  predicate Within(lids: Resolver, final: seq<LidPair>) {
    lids.Index? ==> forall p :: p in lids.pairs ==> p in final
  }

  function CanonicalString(lids: Resolver, jid: JID, alt: JID): string {
    JidString(CanonicalJid(lids, jid, alt).jid)
  }

  lemma NumberOfPair(index: seq<LidPair>, p: LidPair)
    requires ValidIndex(index) && p in index
    ensures NumberOf(index, p.lid) == Some(p.pn)
  {
    PairsAreUnique(index, p, LidPair(p.lid, NumberOf(index, p.lid).value));
  }

  lemma RenderIsInjective(user: string, server: string, user': string, server': string)
    requires '@' !in user && '@' !in user'
    requires Render(user, server) == Render(user', server')
    ensures user == user' && server == server'
  {
    var a := Render(user, server);
    IndexOfFirst(user, '@', server);
    IndexOfFirst(user', '@', server');
    assert a[..|user|] == user && a[..|user|] == user';
    assert a[|user| + 1..] == server && a[|user| + 1..] == server';
  }

  /** Without a known number an address projects to itself. */
  lemma UnmatchedProjects(index: seq<LidPair>, jid: JID)
    requires ValidIndex(index) && WellFormed(jid) && jid.device == 0
    requires jid.server == LID ==> NumberOf(index, jid.user).None?
    ensures Projected(index, JidString(jid)) == JidString(jid)
  {
    var s := JidString(jid);
    ProjectedIs(index, s);
    if jid.user == "" {
      assert IndexOf(s, '@') < 0;
    } else if KnownNumber(index, s).Some? {
      RenderIsInjective(jid.user, jid.server, SplitAddress(s).value.user, LID);
    }
  }

  /** Whenever a row was filed, and with whatever was known then, reading it with the final
      index gives the address it would be filed under then -- if and only if the alternative it
      came with, if any decided, names the person the index ends up naming. */
  lemma FiledThenReadIsFinal(lids: Resolver, final: seq<LidPair>, jid: JID, alt: JID)
    requires ValidIndex(final) && Within(lids, final) && WellFormed(jid)
    ensures Agrees(final, jid, alt) ==>
              Projected(final, CanonicalString(lids, jid, alt)) == CanonicalString(Index(final), jid, EMPTY_JID)
    ensures WellFormed(alt) && !Agrees(final, jid, alt) ==>
              Projected(final, CanonicalString(lids, jid, alt)) != CanonicalString(Index(final), jid, EMPTY_JID)
  {
    if Agrees(final, jid, alt) {
      HonestlyFiled(lids, final, jid, alt);
    } else if WellFormed(alt) {
      MisfiledByItsAlternative(lids, final, jid, alt);
    }
  }

  /** An alternative whose pair never reaches the index files the message where nobody who asks
      for its conversation will find it. */
  lemma MisfiledByItsAlternative(lids: Resolver, final: seq<LidPair>, jid: JID, alt: JID)
    requires ValidIndex(final) && WellFormed(jid) && WellFormed(alt) && !Agrees(final, jid, alt)
    ensures Projected(final, CanonicalString(lids, jid, alt)) == Render(alt.user, PHONE)
    ensures CanonicalString(Index(final), jid, EMPTY_JID) != Render(alt.user, PHONE)
  {
    UnmatchedProjects(final, ToNonAD(alt));
    var settled := CanonicalJid(Index(final), jid, EMPTY_JID).jid;
    var pn := NumberOf(final, jid.user);
    assert pn.Some? ==> Bare(pn.value) && pn.value != alt.user;
    if settled.user == "" {
      assert JidString(settled) == LID && |Render(alt.user, PHONE)| > |LID|;
    } else if JidString(settled) == Render(alt.user, PHONE) {
      RenderIsInjective(settled.user, settled.server, alt.user, PHONE);
    }
  }

  lemma HonestlyFiled(lids: Resolver, final: seq<LidPair>, jid: JID, alt: JID)
    requires ValidIndex(final) && Within(lids, final)
    requires WellFormed(jid) && Agrees(final, jid, alt)
    ensures Projected(final, CanonicalString(lids, jid, alt)) == CanonicalString(Index(final), jid, EMPTY_JID)
  {
    var filed, settled := CanonicalJid(lids, jid, alt).jid, CanonicalJid(Index(final), jid, EMPTY_JID).jid;
    if jid.server == "" {
      EmptyServerEnds(jid);
      ProjectedIs(final, JidString(jid));
    } else if jid.server != LID || NumberOf(final, jid.user).None? {
      assert filed == settled;
      UnmatchedProjects(final, filed);
    } else {
      KnownLidFiled(lids, final, jid, alt, LidPair(jid.user, NumberOf(final, jid.user).value));
    }
  }

  lemma KnownLidFiled(lids: Resolver, final: seq<LidPair>, jid: JID, alt: JID, pair: LidPair)
    requires ValidIndex(final) && Within(lids, final)
    requires WellFormed(jid) && Agrees(final, jid, alt)
    requires jid.server == LID && pair.lid == jid.user && NumberOf(final, jid.user) == Some(pair.pn)
    ensures Projected(final, CanonicalString(lids, jid, alt)) == CanonicalString(Index(final), jid, EMPTY_JID)
  {
    assert pair in final && Bare(pair.lid) && Bare(pair.pn);
    ProjectedIs(final, Render(pair.lid, LID));
    SplitRender(pair.lid, LID);
    UnmatchedProjects(final, JID(pair.pn, 0, PHONE));
    if alt.server == PHONE && alt.user != "" {
      PairsAreUnique(final, pair, LidPair(jid.user, alt.user));
    } else if lids.Index? && NumberOf(lids.pairs, jid.user).Some? {
      PairsAreUnique(final, pair, LidPair(jid.user, NumberOf(lids.pairs, jid.user).value));
    }
  }

  /** The written form of a parsed address is a fixed point of every fold. */
  lemma CanonicalStringIsFinal(index: seq<LidPair>, jid: JID)
    requires ValidIndex(index) && WellFormed(jid) && ':' !in jid.user
    ensures var s := CanonicalString(Index(index), jid, EMPTY_JID);
            && Projected(index, s) == s && ReadForm(index, s) == s && Repaired(index, s) == s
            && NonAD(s) == s && (jid.user != "" ==> s != "")
  {
    var c := CanonicalJid(Index(index), jid, EMPTY_JID).jid;
    var s := JidString(c);
    if jid.server == "" {
      assert IndexOf(s, '@') == |s| - 1 || IndexOf(s, '@') < 0 by { EmptyServerEnds(jid); }
      ProjectedIs(index, s);
    } else {
      if jid.server == LID && NumberOf(index, jid.user).Some? {
        assert Bare(c.user);
      }
      UnmatchedProjects(index, c);
      if c.user == "" {
        assert IndexOf(s, '@') < 0;
      } else {
        SplitRender(c.user, c.server);
      }
      StoredReadsAsAsked(index, s);
    }
    RepairIsReadForm(index, s);
  }

  // ------------------------------------------------------------ no device is filed

  lemma FirstAtInUser(before: string, rest: string, server: string)
    requires '@' !in before
    ensures var a := Render(before + "@" + rest, server);
            IndexOf(a, '@') == |before| && a[..|before|] == before
  {
    IndexOfFirst(before, '@', rest + "@" + server);
    assert Render(before + "@" + rest, server) == before + ['@'] + (rest + "@" + server);
  }

  lemma FirstAtAfterUser(user: string, server: string)
    requires '@' !in user
    ensures IndexOf(Render(user, server), '@') == |user| && Render(user, server)[..|user|] == user
  {
    IndexOfFirst(user, '@', server);
  }

  /** Without a colon before its first "@" an address is its own device-free form. */
  lemma NoColonBeforeAt(a: string)
    requires IndexOf(a, '@') >= 0 && ':' !in a[..IndexOf(a, '@')]
    ensures NonAD(a) == a
  {
    var at := IndexOf(a, '@');
    assert IndexOf(a[..at], ':') < 0;
    assert a == a[..at] + "@" + a[at + 1..];
  }

  lemma NoColonNoDevice(user: string, server: string)
    requires ':' !in user
    ensures NonAD(Render(user, server)) == Render(user, server)
  {
    var k := IndexOf(user, '@');
    if k >= 0 {
      assert user == user[..k] + "@" + user[k + 1..];
      FirstAtInUser(user[..k], user[k + 1..], server);
    } else {
      FirstAtAfterUser(user, server);
    }
    NoColonBeforeAt(Render(user, server));
  }

  lemma SpelledWithoutDevice(jid: JID)
    requires ':' !in jid.user && (jid.user == "" ==> '@' !in jid.server)
    requires jid.device == 0 || (jid.server == "" && '@' !in jid.user)
    ensures NonAD(JidString(jid)) == JidString(jid)
  {
    if jid.device > 0 {
      EmptyServerEnds(jid);
    } else if jid.user != "" {
      NoColonNoDevice(jid.user, jid.server);
    } else {
      assert IndexOf(jid.server, '@') < 0;
    }
  }

  /** As long as the parsed address and its alternative keep devices out of their user parts, no
      write path files one. */
  lemma FiledCarriesNoDevice(lids: Resolver, final: seq<LidPair>, jid: JID, alt: JID)
    requires ValidIndex(final) && Within(lids, final)
    requires WellFormed(jid) && ':' !in jid.user && ':' !in alt.user
    ensures var c := CanonicalJid(lids, jid, alt).jid;
            NonAD(JidString(c)) == JidString(c) && NonAD(JidString(ToNonAD(c))) == JidString(ToNonAD(c))
  {
    var c := CanonicalJid(lids, jid, alt).jid;
    if GetNumber(lids, jid).Some? {
      assert Bare(LidPair(jid.user, GetNumber(lids, jid).value).pn);
    }
    SpelledWithoutDevice(c);
    SpelledWithoutDevice(ToNonAD(c));
  }

  /** Nor does the repair leave one, whatever it started from. */
  lemma RepairLeavesNoDevice(index: seq<LidPair>, address: string)
    requires ValidIndex(index)
    ensures NonAD(Repaired(index, address)) == Repaired(index, address)
  {
    var bare, server := RepairedForm(index, address);
    if server != "" {
      if server == LID && NumberOf(index, bare).Some? {
        NoColonNoDevice(NumberOf(index, bare).value, PHONE);
      }
      NoColonNoDevice(bare, server);
    }
  }

  lemma FiledStringIsFinal(lids: Resolver, index: seq<LidPair>, jid: JID)
    requires ValidIndex(index) && Within(lids, index) && WellFormed(jid) && ':' !in jid.user
    ensures var s := CanonicalString(lids, jid, EMPTY_JID);
            ReadForm(index, s) == Projected(index, s) == CanonicalString(Index(index), jid, EMPTY_JID)
    ensures jid.user != "" ==> CanonicalString(lids, jid, EMPTY_JID) != ""
  {
    FiledThenReadIsFinal(lids, index, jid, EMPTY_JID);
    FiledCarriesNoDevice(lids, index, jid, EMPTY_JID);
    if GetNumber(lids, jid).Some? {
      assert Bare(LidPair(jid.user, GetNumber(lids, jid).value).pn);
    }
  }

  lemma EmptyServerEnds(jid: JID)
    requires '@' !in jid.user && jid.server == ""
    ensures IndexOf(JidString(jid), '@') == |JidString(jid)| - 1 || IndexOf(JidString(jid), '@') < 0
  {
    if jid.device > 0 {
      IndexOfFirst(jid.user + ":" + Decimal(jid.device), '@', "");
    } else if jid.user != "" {
      IndexOfFirst(jid.user, '@', "");
    }
  }

  // ------------------------------------------------------------------- parsing

  /** `strconv.ParseUint(s, 10, 16)`. */
  function ParseDevice(s: string): Option<nat> {
    if s != "" && (forall c :: c in s ==> IsDigit(c)) && DecimalValue(s) < 0x1_0000
    then Some(DecimalValue(s)) else None
  }

  lemma FirstPiece(s: string, sep: char)
    ensures forall c :: c in Split(s, sep)[0] ==> c in s
    ensures |Split(s, sep)| == 1 ==> Split(s, sep) == [s]
  {
  }

  /** whatsmeow's `types.ParseJID`, without the agent form `user.agent:device`, which is rejected. */
  function ParseJid(raw: string): (r: Option<JID>)
    ensures r.Some? ==> WellFormed(r.value) && ':' !in r.value.user
  {
    var parts := Split(raw, '@');
    assert parts[0] in parts && (|parts| > 1 ==> parts[1] in parts);
    if |parts| == 1 then Some(JID("", 0, parts[0]))
    else
      var pieces := Split(parts[0], ':');
      FirstPiece(parts[0], ':');
      assert pieces[0] in pieces;
      if '.' in parts[0] || |pieces| > 2 then None
      else if |pieces| == 1 then Some(JID(pieces[0], 0, parts[1]))
      else match ParseDevice(pieces[1])
        case None => None
        case Some(device) => Some(JID(pieces[0], device, parts[1]))
  }

  function KeepDigits(s: string): (r: string)
    ensures forall c :: c in r ==> IsDigit(c)
  {
    if s == "" then ""
    else (if IsDigit(s[0]) then [s[0]] else "") + KeepDigits(s[1..])
  }

  function WithUser(jid: Option<JID>): Option<JID> {
    if jid.Some? && jid.value.user == "" then None else jid
  }

  /** The gateway's own parser: text without an "@" keeps its digits only, anything else is parsed as it is. */
  function ParseRecipient(raw: string): (r: Option<JID>)
    ensures r.Some? ==> WellFormed(r.value) && ':' !in r.value.user && r.value.user != ""
  {
    var trimmed := TrimSpace(raw);
    if trimmed == "" then None
    else if '@' in trimmed then WithUser(ParseJid(trimmed))
    else
      var digits := KeepDigits(trimmed);
      if digits == "" then None else WithUser(ParseJid(Render(digits, PHONE)))
  }

  lemma ParseAddress(raw: string, jid: JID)
    requires Trimmed(raw) && '@' in raw && ParseJid(raw) == Some(jid) && jid.user != ""
    ensures ParseRecipient(raw) == Some(jid)
  {
  }

  function FirstServer(server: string): string { Split(server, '@')[0] }

  lemma FirstServerIs(server: string)
    ensures '@' !in FirstServer(server) && ('@' !in server ==> FirstServer(server) == server)
  {
    assert Split(server, '@')[0] in Split(server, '@');
    if '@' !in server {
      assert IndexOf(server, '@') < 0;
    }
  }

  lemma SplitHalves(user: string, server: string)
    requires '@' !in user
    ensures |Split(Render(user, server), '@')| > 1
    ensures Split(Render(user, server), '@')[0] == user && Split(Render(user, server), '@')[1] == FirstServer(server)
  {
    SplitAt(user, '@', server);
    assert Render(user, server) == user + ['@'] + server;
  }

  lemma NoPieces(user: string)
    requires ':' !in user
    ensures Split(user, ':') == [user]
  {
    assert IndexOf(user, ':') < 0;
  }

  lemma PlainParses(user: string, server: string)
    requires '@' !in user && ':' !in user && '.' !in user
    ensures ParseJid(Render(user, server)) == Some(JID(user, 0, FirstServer(server)))
  {
    SplitHalves(user, server);
    NoPieces(user);
  }

  lemma DigitsArePlain(bare: string, device: nat)
    requires '@' !in bare && '.' !in bare
    ensures var user := bare + ":" + Decimal(device); '@' !in user && '.' !in user
  {
    var digits := Decimal(device);
    assert !IsDigit('@') && !IsDigit('.');
    assert '@' !in digits && '.' !in digits;
  }

  lemma DeviceParses(bare: string, device: nat, server: string)
    requires '@' !in bare && ':' !in bare && '.' !in bare && device < 0x1_0000
    ensures ParseJid(Render(bare + ":" + Decimal(device), server)) == Some(JID(bare, device, FirstServer(server)))
  {
    var digits := Decimal(device);
    DigitsArePlain(bare, device);
    SplitHalves(bare + ":" + digits, server);
    DevicePieces(bare, device);
    DecimalRoundTrip(device);
  }

  lemma DevicePieces(bare: string, device: nat)
    requires ':' !in bare
    ensures Split(bare + ":" + Decimal(device), ':') == [bare, Decimal(device)]
  {
    var digits := Decimal(device);
    assert !IsDigit(':');
    SplitAt(bare, ':', digits);
    assert bare + ":" + digits == bare + [':'] + digits;
    NoPieces(digits);
  }

  lemma ParsePlain(user: string, server: string)
    requires Bare(user) && '.' !in user && '@' !in server
    ensures ParseJid(Render(user, server)) == Some(JID(user, 0, server))
  {
    PlainParses(user, server);
    FirstServerIs(server);
  }

  lemma ParseWithDevice(user: string, device: nat, server: string)
    requires Bare(user) && '.' !in user && '@' !in server && device < 0x1_0000
    ensures ParseJid(Render(user + ":" + Decimal(device), server)) == Some(JID(user, device, server))
  {
    DeviceParses(user, device, server);
    FirstServerIs(server);
  }
}

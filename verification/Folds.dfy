/**
 Where the three folds meet. The write path splits an address with whatsmeow's
 parser, the readers and the repair split it by hand; this module says on which
 strings, of all those the parser accepts, each of them computes what is filed.
 */
module Folds {
  import opened Text
  import opened Addresses

  /** The form a write path files an address under; `None` when the parser refuses it. */
  function FiledForm(index: seq<LidPair>, address: string): Option<string> {
    match ParseJid(address)
    case None => None
    case Some(jid) => Some(CanonicalString(Index(index), jid, EMPTY_JID))
  }

  /** A user part that comes back letter for letter: not empty, no zero in front of a device. */
  predicate SpelledOut(user: string) {
    var colon := IndexOf(user, ':');
    user != "" && (colon < 0 || (colon + 1 < |user| && user[colon + 1] != '0'))
  }

  /** The two halves around the first "@": no other one follows, there is something before any
      device, and nothing the parser would respell. */
  predicate PlainHalves(user: string, server: string) {
    '@' !in server && if server == "" then SpelledOut(user) else BeforeColon(user) != ""
  }

  predicate WrittenPlainly(address: string) {
    var at := IndexOf(address, '@');
    at < 0 || PlainHalves(address[..at], address[at + 1..])
  }

  // --------------------------------------------------------------- how a device is spelled

  lemma {:induction false} DecimalLeads(n: nat)
    requires n > 0
    ensures Decimal(n)[0] != '0'
  {
    if n >= 10 {
      DecimalLeads(n / 10);
    }
  }

  lemma {:induction false} LeadingDigitCounts(s: string)
    requires s != "" && (forall c :: c in s ==> IsDigit(c)) && s[0] != '0'
    ensures DecimalValue(s) > 0
  {
    assert s[0] in s;
    if |s| > 1 {
      LeadingDigitCounts(s[..|s| - 1]);
    }
  }

  /** A number is printed as it was written exactly when it was written without a leading zero. */
  lemma {:induction false} DecimalOfValue(s: string)
    requires s != "" && forall c :: c in s ==> IsDigit(c)
    ensures Decimal(DecimalValue(s)) == s <==> |s| == 1 || s[0] != '0'
  {
    var n := |s| - 1;
    var init, last := s[..n], s[n];
    assert s == init + [last] && last in s;
    var v := DecimalValue(s);
    LastDigit(DecimalValue(init), DigitValue(last));
    if n > 0 {
      DecimalOfValue(init);
      if s[0] != '0' {
        LeadingDigitCounts(init);
      } else if v > 0 {
        DecimalLeads(v);
      }
    }
  }

  lemma LastDigit(high: nat, digit: nat)
    requires digit < 10
    ensures (10 * high + digit) / 10 == high && (10 * high + digit) % 10 == digit
  {
  }

  // ------------------------------------------------------------- an address, half by half

  lemma PlainOf(user: string, server: string)
    requires '@' !in user
    ensures WrittenPlainly(Render(user, server)) <==> PlainHalves(user, server)
  {
    HalvesAre(user, server);
  }

  // ------------------------------------------------------------------------- the parser

  lemma TwoPieces(bare: string, digits: string)
    requires ':' !in bare
    ensures var pieces := Split(bare + ":" + digits, ':');
            |pieces| > 1 && pieces[0] == bare && (|pieces| == 2 ==> pieces[1] == digits)
  {
    SplitAt(bare, ':', digits);
    assert bare + ":" + digits == bare + [':'] + digits;
    FirstPiece(digits, ':');
  }

  /** What the parser makes of the two halves. */
  lemma ParsedPlain(user: string, server: string)
    requires '@' !in user && ':' !in user && ParseJid(Render(user, server)).Some?
    ensures ParseJid(Render(user, server)) == Some(JID(user, 0, FirstServer(server)))
  {
    SplitHalves(user, server);
    NoPieces(user);
  }

  lemma ParsedDevice(bare: string, digits: string, server: string)
    requires ':' !in bare && '@' !in bare && '@' !in digits && ParseJid(Render(bare + ":" + digits, server)).Some?
    ensures ParseDevice(digits).Some?
    ensures ParseJid(Render(bare + ":" + digits, server)) == Some(JID(bare, ParseDevice(digits).value, FirstServer(server)))
  {
    SplitHalves(bare + ":" + digits, server);
    TwoPieces(bare, digits);
  }

  /** The device as it was parsed: none, or the digits after the colon. */
  predicate DeviceOf(user: string, device: nat) {
    var colon := IndexOf(user, ':');
    if colon < 0 then device == 0 else ParseDevice(user[colon + 1..]) == Some(device)
  }

  lemma Parsed(user: string, server: string) returns (device: nat)
    requires '@' !in user && ParseJid(Render(user, server)).Some?
    ensures ParseJid(Render(user, server)) == Some(JID(BeforeColon(user), device, FirstServer(server)))
    ensures DeviceOf(user, device)
  {
    var colon := IndexOf(user, ':');
    if colon < 0 {
      ParsedPlain(user, server);
      device := 0;
    } else {
      var bare, digits := user[..colon], user[colon + 1..];
      assert user == bare + ":" + digits;
      ParsedDevice(bare, digits, server);
      device := ParseDevice(digits).value;
    }
  }

  // --------------------------------------------------------------------- what is filed

  /** No form that is filed holds two "@". */
  predicate OneAt(s: string) {
    IndexOf(s, '@') < 0 || '@' !in s[IndexOf(s, '@') + 1..]
  }

  lemma RenderedAts(user: string, server: string)
    requires '@' !in user
    ensures OneAt(Render(user, server)) <==> '@' !in server
  {
    IndexOfFirst(user, '@', server);
    assert Render(user, server)[|user| + 1..] == server;
  }

  lemma SpelledHasOneAt(jid: JID)
    requires WellFormed(jid)
    ensures OneAt(JidString(jid))
  {
    if jid.device > 0 {
      assert !IsDigit('@');
      RenderedAts(jid.user + ":" + Decimal(jid.device), jid.server);
    } else if jid.user != "" {
      RenderedAts(jid.user, jid.server);
    }
  }

  lemma FiledHasOneAt(index: seq<LidPair>, jid: JID)
    requires ValidIndex(index) && WellFormed(jid)
    ensures OneAt(CanonicalString(Index(index), jid, EMPTY_JID))
  {
    var c := CanonicalJid(Index(index), jid, EMPTY_JID).jid;
    if jid.server == LID && NumberOf(index, jid.user).Some? {
      assert Bare(c.user);
    }
    SpelledHasOneAt(c);
  }

  /** A user on a server is filed as the repair writes it; without a user only the server is left. */
  lemma FiledOnServer(index: seq<LidPair>, jid: JID)
    requires ValidIndex(index) && WellFormed(jid) && jid.server != ""
    ensures CanonicalString(Index(index), jid, EMPTY_JID) ==
            if jid.user == "" then jid.server else Rewritten(index, jid.user, jid.server)
  {
    if jid.server == LID && NumberOf(index, jid.user).Some? {
      assert Bare(NumberOf(index, jid.user).value);
    }
  }

  /** Without a server the address comes back as its parts spell it. */
  lemma FiledOnNoServer(user: string, device: nat)
    requires '@' !in user && DeviceOf(user, device)
    ensures JidString(JID(BeforeColon(user), device, "")) == Render(user, "") <==> SpelledOut(user)
  {
    var colon := IndexOf(user, ':');
    if colon >= 0 {
      AtColon(user);
      DeviceComesBack(user[..colon], user[colon + 1..], device);
    }
  }

  lemma AtColon(user: string)
    requires IndexOf(user, ':') >= 0
    ensures user == BeforeColon(user) + ":" + user[IndexOf(user, ':') + 1..]
  {
  }

  lemma DeviceComesBack(bare: string, digits: string, device: nat)
    requires ParseDevice(digits) == Some(device)
    ensures JidString(JID(bare, device, "")) == Render(bare + ":" + digits, "") <==> digits[0] != '0'
  {
    DecimalOfValue(digits);
    if device == 0 {
      if digits[0] != '0' {
        LeadingDigitCounts(digits);
      }
      assert |Render(bare + ":" + digits, "")| > |bare| + 1;
    } else {
      DecimalLeads(device);
      SuffixesDiffer(bare, Decimal(device), digits);
    }
  }

  lemma SuffixesDiffer(bare: string, digits: string, digits': string)
    ensures Render(bare + ":" + digits, "") == Render(bare + ":" + digits', "") <==> digits == digits'
  {
    var a, a' := Render(bare + ":" + digits, ""), Render(bare + ":" + digits', "");
    assert a[|bare| + 1..|a| - 1] == digits && a'[|bare| + 1..|a'| - 1] == digits';
  }

  // ---------------------------------------------------------------- the three folds

  lemma SecondAtIsNeverFiled(filed: string, index: seq<LidPair>, user: string, bare: string, server: string)
    requires OneAt(filed) && '@' !in user && '@' !in bare && '@' in server
    ensures filed != Render(user, server) && filed != Rewritten(index, bare, server)
  {
    assert '@' !in LID;
    RenderedAts(user, server);
    RenderedAts(bare, server);
  }

  /** Repair, readers' form and filed form of two halves. */
  ghost predicate FoldsMeet(repaired: string, read: string, address: string, filed: string, plain: bool) {
    (repaired == filed <==> plain) && (read == filed <==> plain) && (!plain ==> address != filed)
  }

  lemma FoldsOnServer(index: seq<LidPair>, user: string, jid: JID)
    requires ValidIndex(index) && WellFormed(jid) && '@' !in user && jid.user == BeforeColon(user) && jid.server != ""
    ensures FoldsMeet(Rewritten(index, jid.user, jid.server),
                      if jid.user == "" then Render(user, jid.server) else Rewritten(index, jid.user, jid.server),
                      Render(user, jid.server), CanonicalString(Index(index), jid, EMPTY_JID), PlainHalves(user, jid.server))
  {
    FiledOnServer(index, jid);
    if jid.user == "" {
      assert NumberOf(index, "").None?;
      assert |Render(user, jid.server)| > |jid.server| && |Render("", jid.server)| > |jid.server|;
    }
  }

  /** What the readers' form and the repair make of an address, against what is filed. */
  lemma FoldsOf(index: seq<LidPair>, user: string, server: string)
    requires ValidIndex(index) && '@' !in user && ParseJid(Render(user, server)).Some?
    ensures var a := Render(user, server);
            FoldsMeet(Repaired(index, a), ReadForm(index, a), a, FiledForm(index, a).value, PlainHalves(user, server))
  {
    var device := Parsed(user, server);
    var jid := JID(BeforeColon(user), device, FirstServer(server));
    FirstServerIs(server);
    RepairedOf(index, user, server);
    ReadFormOf(index, user, server);
    if '@' in server {
      FiledHasOneAt(index, jid);
      SecondAtIsNeverFiled(CanonicalString(Index(index), jid, EMPTY_JID), index, user, BeforeColon(user), server);
    } else if server == "" {
      FiledOnNoServer(user, device);
    } else {
      FoldsOnServer(index, user, jid);
    }
  }

  lemma FoldsAgree(index: seq<LidPair>, address: string)
    requires ValidIndex(index) && ParseJid(address).Some?
    ensures Repaired(index, address) == FiledForm(index, address).value <==> WrittenPlainly(address)
    ensures ReadForm(index, address) == FiledForm(index, address).value <==> WrittenPlainly(address)
    ensures !WrittenPlainly(address) ==> address != FiledForm(index, address).value
  {
    if '@' in address {
      var user, server := HalvesOf(address);
      FoldsOf(index, user, server);
      PlainOf(user, server);
    } else {
      FiledWithoutAt(index, address);
      ReadFormIs(index, address);
    }
  }

  lemma FiledWithoutAt(index: seq<LidPair>, address: string)
    requires ValidIndex(index) && '@' !in address
    ensures ParseJid(address) == Some(JID("", 0, address))
    ensures FiledForm(index, address) == Some(address)
  {
    assert IndexOf(address, '@') < 0;
    if address != "" {
      FiledOnServer(index, JID("", 0, address));
    }
  }

  /** The repair writes what the write paths would file, on exactly the plainly written
      addresses among those the parser accepts. */
  lemma RepairIsWriteFold(index: seq<LidPair>, address: string)
    requires ValidIndex(index) && ParseJid(address).Some?
    ensures FiledForm(index, address) == Some(Repaired(index, address)) <==> WrittenPlainly(address)
  {
    FoldsAgree(index, address);
  }

  /** A query is answered from where a write path would file it, on exactly those addresses too. */
  lemma QueryFoldIsWriteFold(index: seq<LidPair>, address: string)
    requires ValidIndex(index) && ParseJid(address).Some?
    ensures FiledForm(index, address) == Some(ReadForm(index, address)) <==> WrittenPlainly(address)
  {
    FoldsAgree(index, address);
  }

  /** A stored address is listed as a write path would file it when, besides, it carries no device. */
  lemma ReadFoldIsWriteFold(index: seq<LidPair>, address: string)
    requires ValidIndex(index) && ParseJid(address).Some?
    ensures FiledForm(index, address) == Some(Projected(index, address)) <==>
            WrittenPlainly(address) && NonAD(address) == address
  {
    FoldsAgree(index, address);
    StoredReadsAsAsked(index, address);
    if !WrittenPlainly(address) {
      ProjectedIs(index, address);
      if KnownNumber(index, address).Some? {
        PlainLid(SplitAddress(address).value.user);
      }
    }
  }

  lemma PlainLid(user: string)
    requires Bare(user)
    ensures WrittenPlainly(Render(user, LID))
  {
    PlainOf(user, LID);
  }

  /** On the addresses the readers accept, that the repair agrees is a matter of one "@". */
  lemma RepairAgreesOnNames(index: seq<LidPair>, address: string)
    requires ValidIndex(index) && ParseJid(address).Some? && SplitAddress(address).Some?
    ensures FiledForm(index, address) == Some(Repaired(index, address)) <==>
            '@' !in address[IndexOf(address, '@') + 1..]
  {
    RepairIsWriteFold(index, address);
  }

  // -------------------------------------------------------------- where they part

  /** A device without a user: three folds, three answers. */
  lemma HollowAddressHasThreeForms(index: seq<LidPair>, device: nat, server: string)
    requires ValidIndex(index) && device < 0x1_0000 && server != "" && '@' !in server
    ensures var a := Render("" + ":" + Decimal(device), server);
            && Repaired(index, a) == Render("", server)
            && ReadForm(index, a) == a
            && FiledForm(index, a) == Some(server)
  {
    var user := "" + ":" + Decimal(device);
    HollowUser(device);
    RepairedOf(index, user, server);
    ReadFormOf(index, user, server);
    HollowIsFiled(index, device, server);
    assert NumberOf(index, "").None?;
  }

  lemma HollowUser(device: nat)
    ensures var user := "" + ":" + Decimal(device); BeforeColon(user) == "" && '@' !in user
  {
    DigitsArePlain("", device);
    assert ("" + ":" + Decimal(device))[0] == ':';
  }

  lemma HollowIsFiled(index: seq<LidPair>, device: nat, server: string)
    requires ValidIndex(index) && device < 0x1_0000 && server != "" && '@' !in server
    ensures FiledForm(index, Render("" + ":" + Decimal(device), server)) == Some(server)
  {
    DeviceParses("", device, server);
    FirstServerIs(server);
    FiledOnServer(index, JID("", device, server));
  }

  lemma FiveIsSpelled()
    ensures Render("" + ":" + Decimal(5), "x") == ":5@x" && Render("", "x") == "@x"
  {
    assert Decimal(5) == ['5'];
  }

  /** A second "@": the parser stops at it, the readers and the repair do not. */
  lemma SecondAtIsDroppedByTheParser(index: seq<LidPair>, lid: string, number: string, rest: string)
    requires ValidIndex(index) && LidPair(lid, number) in index && '.' !in lid
    ensures var a := Render(lid, "lid@" + rest);
            && Repaired(index, a) == ReadForm(index, a) == a
            && FiledForm(index, a) == Some(Render(number, PHONE)) != Some(a)
  {
    var server := "lid@" + rest;
    ServerOfTwo(rest);
    SecondAtStays(index, lid, server);
    SecondAtIsFiled(index, lid, number, server);
    AtsDiffer(number, PHONE, lid, server);
  }

  lemma AtsDiffer(user: string, server: string, user': string, server': string)
    requires '@' !in user && '@' !in user' && '@' !in server && '@' in server'
    ensures Render(user, server) != Render(user', server')
  {
    RenderedAts(user, server);
    RenderedAts(user', server');
  }

  lemma SecondAtStays(index: seq<LidPair>, lid: string, server: string)
    requires ValidIndex(index) && Bare(lid) && server != "" && server != LID
    ensures Repaired(index, Render(lid, server)) == ReadForm(index, Render(lid, server)) == Render(lid, server)
  {
    assert BeforeColon(lid) == lid;
    RepairedOf(index, lid, server);
    ReadFormOf(index, lid, server);
  }

  lemma SecondAtIsFiled(index: seq<LidPair>, lid: string, number: string, server: string)
    requires ValidIndex(index) && LidPair(lid, number) in index && '.' !in lid && FirstServer(server) == LID
    ensures FiledForm(index, Render(lid, server)) == Some(Render(number, PHONE))
  {
    PlainParses(lid, server);
    NumberOfPair(index, LidPair(lid, number));
    FiledOnServer(index, JID(lid, 0, LID));
  }

  lemma ServerOfTwo(rest: string)
    ensures FirstServer("lid@" + rest) == LID && '@' in "lid@" + rest && "lid@" + rest != LID
  {
    SplitAt(LID, '@', rest);
    var server := LID + ['@'] + rest;
    assert server == "lid@" + rest;
    assert server[|LID|] == '@' && |server| > |LID|;
  }
}

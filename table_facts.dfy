/**
 * What the counterparty table means, rule by rule: which rules are
 * anchored at word boundaries and which are not, what the unusual
 * patterns (the BEL escape, the lazy wildcard, the loose alternation)
 * actually accept, and how the order of the table decides between rules
 * that both match.
 */
module TableFacts {
  import opened Regex
  import opened NameTable
  import opened Classifier

  // ---------------------------------------------------------------------
  // Anchoring

  /** A rule wrapped in `\b(...)\b` only matches where a word starts or ends. */
  lemma WordStartsAtBoundary(r: Regex, t: string, i: nat)
    requires i <= |t| && MatchAt(Word(r), t, i)
    ensures IsBoundary(t, i)
  {
    assert MatchStack(Then(Boundary, Then(Cat(r, Boundary), Done)), t, i);
  }

  /** `\bhit\b` of Hitesh Bhagat: the word "hit" matches, "hit" inside "white" does not. */
  lemma HiteshMatchesWord(t: string, i: nat)
    requires i + 3 <= |t| && IsBoundary(t, i) && LitAt("hit", t, i) && IsBoundary(t, i + 3)
    ensures MatchAt(HiteshBhagat, t, i)
  {
    var hitesh := Cat(Lit("hitesh"), Opt(Alt(Lit(" bhagat"), Lit("bhaga"))));
    var others := Alt(Lit("ICICX5879"), Lit("8447299009"));
    var after := Then(Boundary, Done);
    assert MatchStack(after, t, i + 3);
    assert MatchStack(Then(Lit("hit"), after), t, i);
    assert MatchStack(Then(Alt(Lit("hit"), others), after), t, i);
    assert MatchStack(Then(Alt(hitesh, Alt(Lit("hit"), others)), after), t, i);
    assert MatchStack(Then(Cat(Alt(hitesh, Alt(Lit("hit"), others)), Boundary), Done), t, i);
    assert MatchStack(Then(Boundary, Then(Cat(Alt(hitesh, Alt(Lit("hit"), others)), Boundary), Done)), t, i);
  }

  lemma HiteshNotInsideWord()
    ensures !Search(HiteshBhagat, "white")
  {
    var t := "white";
    SearchSpec(HiteshBhagat, t);
    MatchAtEnd(HiteshBhagat, t);
    forall j | 0 < j < |t| ensures !MatchAt(HiteshBhagat, t, j) {
      MatchBoundaryThen(HiteshBhagat.right, t, j);
    }
    assert !MatchAt(HiteshBhagat, t, 0);
  }

  /** Bagril Biotech has no boundary: "bagril" anywhere, even inside a longer word, matches. */
  lemma BagrilUnanchored(t: string, i: nat)
    requires i <= |t| && LitAt("bagril", t, i)
    ensures MatchAt(BagrilBiotech, t, i)
  {
    assert MatchStack(Then(Lit("bagril"), Done), t, i);
  }

  /** Balaji Store has no boundary either. */
  lemma BalajiUnanchored(t: string, i: nat)
    requires i <= |t| && (LitAt("balaji", t, i) || LitAt("bala ji", t, i))
    ensures MatchAt(BalajiStore, t, i)
  {
    if LitAt("balaji", t, i) {
      assert MatchStack(Then(Lit("balaji"), Done), t, i);
    } else {
      assert MatchStack(Then(Lit("bala ji"), Done), t, i);
    }
  }

  /** Vendiman has no boundary. */
  lemma VendimanUnanchored(t: string, i: nat)
    requires i <= |t| && LitAt("vendiman", t, i)
    ensures MatchAt(Vendiman, t, i)
  {
    assert MatchStack(Then(Empty, Done), t, i + 8);
    assert MatchStack(Then(Lit("vendiman"), Then(Opt(Lit(" pvt ltd")), Done)), t, i);
  }

  /** Inside a longer word the unanchored rules match and an anchored one does not. */
  lemma BalajiInsideWord()
    ensures Search(BalajiStore, "shribalaji")
  {
    BalajiUnanchored("shribalaji", 4);
    SearchSpec(BalajiStore, "shribalaji");
  }

  lemma BagrilInsideWord()
    ensures Search(BagrilBiotech, "abagrilx")
  {
    BagrilUnanchored("abagrilx", 1);
    SearchSpec(BagrilBiotech, "abagrilx");
  }

  lemma DominosNotInsideWord()
    ensures !Search(Dominos, "xdominos")
  {
    var t := "xdominos";
    SearchSpec(Dominos, t);
    MatchAtEnd(Dominos, t);
    forall j | 0 < j < |t| ensures !MatchAt(Dominos, t, j) {
      MatchBoundaryThen(Dominos.right, t, j);
    }
    assert !MatchAt(Dominos, t, 0);
  }

  // ---------------------------------------------------------------------
  // Cognizant: `\bCOGNIZ.*?\b` makes the whole rule the same as `\bCOGNIZ`

  /** The two Cognizant alternatives, each with its leading `\b` taken off. */
  lemma CognizantSplit(t: string, i: nat)
    requires i <= |t|
    ensures MatchAt(Cognizant, t, i) <==>
              || (IsBoundary(t, i) && MatchStack(Then(Lit("COGNIZANT"), Then(Boundary, Done)), t, i))
              || (IsBoundary(t, i) && MatchStack(Then(Lit("COGNIZ"), Then(Cat(AnyLazy, Boundary), Done)), t, i))
  {
    var a1 := Cat(Boundary, Cat(Lit("COGNIZANT"), Boundary));
    var a2 := Cat(Boundary, Cat(Lit("COGNIZ"), Cat(AnyLazy, Boundary)));
    assert MatchAt(Cognizant, t, i) == (MatchStack(Then(a1, Done), t, i) || MatchStack(Then(a2, Done), t, i));
    assert MatchStack(Then(a1, Done), t, i)
        == MatchStack(Then(Boundary, Then(Cat(Lit("COGNIZANT"), Boundary), Done)), t, i);
    assert MatchStack(Then(a2, Done), t, i)
        == MatchStack(Then(Boundary, Then(Cat(Lit("COGNIZ"), Cat(AnyLazy, Boundary)), Done)), t, i);
    assert MatchStack(Then(Cat(Lit("COGNIZANT"), Boundary), Done), t, i)
        == MatchStack(Then(Lit("COGNIZANT"), Then(Boundary, Done)), t, i);
    assert MatchStack(Then(Cat(Lit("COGNIZ"), Cat(AnyLazy, Boundary)), Done), t, i)
        == MatchStack(Then(Lit("COGNIZ"), Then(Cat(AnyLazy, Boundary), Done)), t, i);
  }

  /** Once "COGNIZ" is read at a boundary, the lazy tail `.*?\b` always succeeds. */
  lemma CognizPrefixSuffices(t: string, i: nat)
    requires i <= |t| && LitAt("COGNIZ", t, i)
    ensures MatchStack(Then(Lit("COGNIZ"), Then(Cat(AnyLazy, Boundary), Done)), t, i)
  {
    LitAtChars("COGNIZ", t, i);
    assert Fold(t[i + 5]) == 'z';
    LazyReachesBoundary(t, i + 6);
    assert MatchStack(Then(Cat(AnyLazy, Boundary), Done), t, i + 6);
  }

  /** The whole word "COGNIZANT" begins with "COGNIZ". */
  lemma CognizantHasPrefix(t: string, i: nat)
    requires i <= |t| && MatchStack(Then(Lit("COGNIZANT"), Then(Boundary, Done)), t, i)
    ensures LitAt("COGNIZ", t, i)
  {
    LitAtPrefix("COGNIZANT", 6, t, i);
    assert "COGNIZANT"[..6] == "COGNIZ";
  }

  lemma CognizantIsPrefixRule(t: string, i: nat)
    requires i <= |t|
    ensures MatchAt(Cognizant, t, i) <==> IsBoundary(t, i) && LitAt("COGNIZ", t, i)
  {
    CognizantSplit(t, i);
    if IsBoundary(t, i) && LitAt("COGNIZ", t, i) {
      CognizPrefixSuffices(t, i);
    }
    if MatchStack(Then(Lit("COGNIZANT"), Then(Boundary, Done)), t, i) {
      CognizantHasPrefix(t, i);
    }
  }

  // ---------------------------------------------------------------------
  // Amazon: `\amazon` starts with the BEL character

  /** The Amazon rule as the union of its six alternatives. */
  lemma AmazonSplit(t: string, i: nat)
    requires i <= |t|
    ensures MatchAt(Amazon, t, i) ==
              (|| MatchAt(Cat(Lit([Bel]), Lit("mazon")), t, i)
               || MatchAt(Lit("amazon@apl"), t, i)
               || MatchAt(Lit("you are pay"), t, i)
               || MatchAt(Lit("amazon india"), t, i)
               || MatchAt(Lit("amazon pay"), t, i)
               || MatchAt(Cat(Lit("amazon seller"), Boundary), t, i))
  {
    var seller := Cat(Lit("amazon seller"), Boundary);
    var r5 := Alt(Lit("amazon pay"), seller);
    var r4 := Alt(Lit("amazon india"), r5);
    var r3 := Alt(Lit("you are pay"), r4);
    var r2 := Alt(Lit("amazon@apl"), r3);
    MatchAlt(Cat(Lit([Bel]), Lit("mazon")), r2, t, i);
    MatchAlt(Lit("amazon@apl"), r3, t, i);
    MatchAlt(Lit("you are pay"), r4, t, i);
    MatchAlt(Lit("amazon india"), r5, t, i);
    MatchAlt(Lit("amazon pay"), seller, t, i);
  }

  /** `\amazon`: the BEL character, then "mazon". */
  lemma AmazonBel(t: string, i: nat)
    requires i <= |t|
    ensures MatchAt(Cat(Lit([Bel]), Lit("mazon")), t, i) <==> (i < |t| && t[i] == Bel && LitAt("mazon", t, i + 1))
  {
    MatchLitThen([Bel], Lit("mazon"), t, i);
    if LitAt([Bel], t, i) {
      MatchLit("mazon", t, i + 1);
    }
    assert LitAt([Bel], t, i) == (i < |t| && Fold(t[i]) == Bel) by {
      assert [Bel][1..] == [];
    }
    if i < |t| && Fold(t[i]) == Bel {
      assert t[i] == Bel;
    }
  }

  /** The six alternatives of the Amazon rule; only the last needs a boundary, after it. */
  lemma AmazonAlternatives(t: string, i: nat)
    requires i <= |t|
    ensures MatchAt(Amazon, t, i) <==>
              || (i < |t| && t[i] == Bel && LitAt("mazon", t, i + 1))
              || LitAt("amazon@apl", t, i)
              || LitAt("you are pay", t, i)
              || LitAt("amazon india", t, i)
              || LitAt("amazon pay", t, i)
              || (LitAt("amazon seller", t, i) && IsBoundary(t, i + 13))
  {
    AmazonSplit(t, i);
    AmazonBel(t, i);
    MatchLit("amazon@apl", t, i);
    MatchLit("you are pay", t, i);
    MatchLit("amazon india", t, i);
    MatchLit("amazon pay", t, i);
    MatchLitBoundary("amazon seller", t, i);
  }

  /** So the plain word "amazon" is not recognised. */
  lemma PlainAmazonMissed()
    ensures !Search(Amazon, "amazon")
  {
    SearchSpec(Amazon, "amazon");
    forall j | 0 <= j <= 6 ensures !MatchAt(Amazon, "amazon", j) {
      AmazonAlternatives("amazon", j);
    }
  }

  // ---------------------------------------------------------------------
  // Kotak: the alternation binds loosest, so each `\b` covers one alternative

  /** `chr?gs?` with nothing after it: "chg" or "chrg"; the optional s never matters. */
  lemma KotakCharges(t: string, i: nat)
    requires i <= |t|
    ensures MatchAt(Cat(Lit("ch"), Cat(Opt(Lit("r")), Cat(Lit("g"), Opt(Lit("s"))))), t, i)
            <==> LitAt("chg", t, i) || LitAt("chrg", t, i)
  {
    var tail := Cat(Lit("g"), Opt(Lit("s")));
    MatchLitThen("ch", Cat(Opt(Lit("r")), tail), t, i);
    assert "chg" == "ch" + "g";
    assert "chrg" == "ch" + "rg";
    assert "rg" == "r" + "g";
    LitAtConcat("ch", "g", t, i);
    LitAtConcat("ch", "rg", t, i);
    LitAtConcat("r", "g", t, i + 2);
    if LitAt("ch", t, i) {
      MatchOptLitThen("r", tail, t, i + 2);
      MatchLitThen("g", Opt(Lit("s")), t, i + 2);
      if LitAt("g", t, i + 2) { MatchOptEmpty(Lit("s"), t, i + 3); }
      if LitAt("r", t, i + 2) {
        MatchLitThen("g", Opt(Lit("s")), t, i + 3);
        if LitAt("g", t, i + 3) { MatchOptEmpty(Lit("s"), t, i + 4); }
      }
    }
  }

  lemma KotakAlternatives(t: string, i: nat)
    requires i <= |t|
    ensures MatchAt(Kotak, t, i) <==>
              || (IsBoundary(t, i) && (LitAt("chg", t, i) || LitAt("chrg", t, i)))
              || LitAt("annual fee", t, i)
              || (LitAt("cw fee", t, i) && IsBoundary(t, i + 6))
  {
    var charges := Cat(Lit("ch"), Cat(Opt(Lit("r")), Cat(Lit("g"), Opt(Lit("s")))));
    MatchAlt(Cat(Boundary, charges), Alt(Lit("annual fee"), Cat(Lit("cw fee"), Boundary)), t, i);
    MatchAlt(Lit("annual fee"), Cat(Lit("cw fee"), Boundary), t, i);
    MatchLit("annual fee", t, i);
    MatchLitBoundary("cw fee", t, i);
    MatchBoundaryThen(charges, t, i);
    KotakCharges(t, i);
  }

  // ---------------------------------------------------------------------
  // Order

  /** An Ajay Sharma match is never overridden by a later rule such as Dominos. */
  lemma AjayOutranksLaterRules(t: string)
    requires Search(AjaySharma, t)
    ensures CategorizeName(t) in {"Vyom", "Kanishq Sharma", "Kasturi Sharma", "Ajay Sharma"}
    ensures !Search(Vyom, t) && !Search(KanishqSharma, t) && !Search(KasturiSharma, t) ==>
              CategorizeName(t) == "Ajay Sharma"
  {
    FirstMatchWins(Table, t, 3);
    assert Table[0] == Rule("Vyom", Vyom);
    assert Table[1] == Rule("Kanishq Sharma", KanishqSharma);
    assert Table[2] == Rule("Kasturi Sharma", KasturiSharma);
    assert Table[3] == Rule("Ajay Sharma", AjaySharma);
  }

  /** The first merchant rule answers whenever no person rule matches. */
  lemma DominosAfterPeople(t: string)
    requires NoneMatch(People, t) && Search(Dominos, t)
    ensures CategorizeName(t) == "Dominos"
  {
    assert Table == People + (Merchants + Services);
    FirstMatchAppend(People, Merchants + Services, t);
    assert (Merchants + Services)[0] == Rule("Dominos", Dominos);
  }

  lemma KanMatchesKanishq()
    ensures Search(KanishqSharma, "kan vyom")
  {
    assert MatchAt(KanishqSharma, "kan vyom", 0);
  }

  lemma KanVyomMatchesVyom()
    ensures Search(Vyom, "kan vyom")
  {
    var t := "kan vyom";
    assert LitAt("vyom", t, 4);
    MatchLitBoundary("vyom", t, 4);
    assert MatchAt(Vyom, t, 4);
    SearchSpec(Vyom, t);
  }

  /** The first rule of the table wins whenever it matches. */
  lemma VyomAlwaysWins(t: string)
    requires Search(Vyom, t)
    ensures CategorizeName(t) == "Vyom"
  {
    assert Table[0] == Rule("Vyom", Vyom);
    FirstMatchWins(Table, t, 0);
  }

  /** "kan vyom" matches both Vyom and Kanishq Sharma; Vyom comes first and wins. */
  lemma EarlierRuleWins(t: string)
    requires t == "kan vyom"
    ensures Search(KanishqSharma, t)
    ensures CategorizeName(t) == "Vyom"
  {
    KanMatchesKanishq();
    KanVyomMatchesVyom();
    VyomAlwaysWins(t);
  }
}

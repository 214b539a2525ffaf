/**
 * A worked classification: "dominos" in any case is labelled "Dominos".
 * Every person rule is anchored by `\b(...)\b`, and none of their
 * alternatives occurs at a word edge of "dominos", so the search falls
 * through to the first merchant rule.
 */
module DominosExample {
  import opened Regex
  import opened NameTable
  import opened Classifier
  import opened TableFacts

  lemma VyomMisses(t: string)
    requires t == "dominos"
    ensures !Search(Vyom, t)
  {
    SearchSpec(Vyom, t);
    MatchAtEnd(Vyom, t);
    forall j | 0 < j < |t| ensures !MatchAt(Vyom, t, j) {
      MatchBoundaryThen(Vyom.right, t, j);
    }
    assert !MatchAt(Vyom, "dominos", 0);
  }

  lemma KanishqSharmaMisses(t: string)
    requires t == "dominos"
    ensures !Search(KanishqSharma, t)
  {
    SearchSpec(KanishqSharma, t);
    MatchAtEnd(KanishqSharma, t);
    forall j | 0 < j < |t| ensures !MatchAt(KanishqSharma, t, j) {
      MatchBoundaryThen(KanishqSharma.right, t, j);
    }
    assert !MatchAt(KanishqSharma, "dominos", 0);
  }

  lemma KasturiSharmaMisses(t: string)
    requires t == "dominos"
    ensures !Search(KasturiSharma, t)
  {
    SearchSpec(KasturiSharma, t);
    MatchAtEnd(KasturiSharma, t);
    forall j | 0 < j < |t| ensures !MatchAt(KasturiSharma, t, j) {
      MatchBoundaryThen(KasturiSharma.right, t, j);
    }
    assert !MatchAt(KasturiSharma, "dominos", 0);
  }

  lemma AjaySharmaMisses(t: string)
    requires t == "dominos"
    ensures !Search(AjaySharma, t)
  {
    SearchSpec(AjaySharma, t);
    MatchAtEnd(AjaySharma, t);
    forall j | 0 < j < |t| ensures !MatchAt(AjaySharma, t, j) {
      MatchBoundaryThen(AjaySharma.right, t, j);
    }
    assert !MatchAt(AjaySharma, "dominos", 0);
  }

  lemma DeepakVishwakarmaMisses(t: string)
    requires t == "dominos"
    ensures !Search(DeepakVishwakarma, t)
  {
    SearchSpec(DeepakVishwakarma, t);
    MatchAtEnd(DeepakVishwakarma, t);
    forall j | 0 < j < |t| ensures !MatchAt(DeepakVishwakarma, t, j) {
      MatchBoundaryThen(DeepakVishwakarma.right, t, j);
    }
    assert !MatchAt(DeepakVishwakarma, "dominos", 0);
  }

  lemma AnanditaJangraMisses(t: string)
    requires t == "dominos"
    ensures !Search(AnanditaJangra, t)
  {
    SearchSpec(AnanditaJangra, t);
    MatchAtEnd(AnanditaJangra, t);
    forall j | 0 < j < |t| ensures !MatchAt(AnanditaJangra, t, j) {
      MatchBoundaryThen(AnanditaJangra.right, t, j);
    }
    assert !MatchAt(AnanditaJangra, "dominos", 0);
  }

  lemma DhruvParasharMisses(t: string)
    requires t == "dominos"
    ensures !Search(DhruvParashar, t)
  {
    SearchSpec(DhruvParashar, t);
    MatchAtEnd(DhruvParashar, t);
    forall j | 0 < j < |t| ensures !MatchAt(DhruvParashar, t, j) {
      MatchBoundaryThen(DhruvParashar.right, t, j);
    }
    assert !MatchAt(DhruvParashar, "dominos", 0);
  }

  lemma KaranveerMisses(t: string)
    requires t == "dominos"
    ensures !Search(Karanveer, t)
  {
    SearchSpec(Karanveer, t);
    MatchAtEnd(Karanveer, t);
    forall j | 0 < j < |t| ensures !MatchAt(Karanveer, t, j) {
      MatchBoundaryThen(Karanveer.right, t, j);
    }
    assert !MatchAt(Karanveer, "dominos", 0);
  }

  lemma KaranTalwarMisses(t: string)
    requires t == "dominos"
    ensures !Search(KaranTalwar, t)
  {
    SearchSpec(KaranTalwar, t);
    MatchAtEnd(KaranTalwar, t);
    forall j | 0 < j < |t| ensures !MatchAt(KaranTalwar, t, j) {
      MatchBoundaryThen(KaranTalwar.right, t, j);
    }
    assert !MatchAt(KaranTalwar, "dominos", 0);
  }

  lemma PragunMaganMisses(t: string)
    requires t == "dominos"
    ensures !Search(PragunMagan, t)
  {
    SearchSpec(PragunMagan, t);
    MatchAtEnd(PragunMagan, t);
    forall j | 0 < j < |t| ensures !MatchAt(PragunMagan, t, j) {
      MatchBoundaryThen(PragunMagan.right, t, j);
    }
    assert !MatchAt(PragunMagan, "dominos", 0);
  }

  lemma YawarRashidMisses(t: string)
    requires t == "dominos"
    ensures !Search(YawarRashid, t)
  {
    SearchSpec(YawarRashid, t);
    MatchAtEnd(YawarRashid, t);
    forall j | 0 < j < |t| ensures !MatchAt(YawarRashid, t, j) {
      MatchBoundaryThen(YawarRashid.right, t, j);
    }
    assert !MatchAt(YawarRashid, "dominos", 0);
  }

  lemma HiteshBhagatMisses(t: string)
    requires t == "dominos"
    ensures !Search(HiteshBhagat, t)
  {
    SearchSpec(HiteshBhagat, t);
    MatchAtEnd(HiteshBhagat, t);
    forall j | 0 < j < |t| ensures !MatchAt(HiteshBhagat, t, j) {
      MatchBoundaryThen(HiteshBhagat.right, t, j);
    }
    assert !MatchAt(HiteshBhagat, "dominos", 0);
  }

  lemma AkhriebuPuchoMisses(t: string)
    requires t == "dominos"
    ensures !Search(AkhriebuPucho, t)
  {
    SearchSpec(AkhriebuPucho, t);
    MatchAtEnd(AkhriebuPucho, t);
    forall j | 0 < j < |t| ensures !MatchAt(AkhriebuPucho, t, j) {
      MatchBoundaryThen(AkhriebuPucho.right, t, j);
    }
    assert !MatchAt(AkhriebuPucho, "dominos", 0);
  }

  lemma BhupeshJingarMisses(t: string)
    requires t == "dominos"
    ensures !Search(BhupeshJingar, t)
  {
    SearchSpec(BhupeshJingar, t);
    MatchAtEnd(BhupeshJingar, t);
    forall j | 0 < j < |t| ensures !MatchAt(BhupeshJingar, t, j) {
      MatchBoundaryThen(BhupeshJingar.right, t, j);
    }
    assert !MatchAt(BhupeshJingar, "dominos", 0);
  }

  lemma VivekTantiMisses(t: string)
    requires t == "dominos"
    ensures !Search(VivekTanti, t)
  {
    SearchSpec(VivekTanti, t);
    MatchAtEnd(VivekTanti, t);
    forall j | 0 < j < |t| ensures !MatchAt(VivekTanti, t, j) {
      MatchBoundaryThen(VivekTanti.right, t, j);
    }
    assert !MatchAt(VivekTanti, "dominos", 0);
  }

  lemma VishalTantiMisses(t: string)
    requires t == "dominos"
    ensures !Search(VishalTanti, t)
  {
    SearchSpec(VishalTanti, t);
    MatchAtEnd(VishalTanti, t);
    forall j | 0 < j < |t| ensures !MatchAt(VishalTanti, t, j) {
      MatchBoundaryThen(VishalTanti.right, t, j);
    }
    assert !MatchAt(VishalTanti, "dominos", 0);
  }

  lemma GauravYadavMisses(t: string)
    requires t == "dominos"
    ensures !Search(GauravYadav, t)
  {
    SearchSpec(GauravYadav, t);
    MatchAtEnd(GauravYadav, t);
    forall j | 0 < j < |t| ensures !MatchAt(GauravYadav, t, j) {
      MatchBoundaryThen(GauravYadav.right, t, j);
    }
    assert !MatchAt(GauravYadav, "dominos", 0);
  }

  lemma JegendraMisses(t: string)
    requires t == "dominos"
    ensures !Search(Jegendra, t)
  {
    SearchSpec(Jegendra, t);
    MatchAtEnd(Jegendra, t);
    forall j | 0 < j < |t| ensures !MatchAt(Jegendra, t, j) {
      MatchBoundaryThen(Jegendra.right, t, j);
    }
    assert !MatchAt(Jegendra, "dominos", 0);
  }

  lemma ParthSinghMisses(t: string)
    requires t == "dominos"
    ensures !Search(ParthSingh, t)
  {
    SearchSpec(ParthSingh, t);
    MatchAtEnd(ParthSingh, t);
    forall j | 0 < j < |t| ensures !MatchAt(ParthSingh, t, j) {
      MatchBoundaryThen(ParthSingh.right, t, j);
    }
    assert !MatchAt(ParthSingh, "dominos", 0);
  }

  /** No person rule matches "dominos". */
  lemma NoPersonInDominos(t: string)
    requires t == "dominos"
    ensures NoneMatch(People, t)
  {
    forall j | 0 <= j < |People| ensures !Search(People[j].pattern, t) {
      if j == 0 {
        assert People[0].pattern == Vyom;
        VyomMisses(t);
      } else if j == 1 {
        assert People[1].pattern == KanishqSharma;
        KanishqSharmaMisses(t);
      } else if j == 2 {
        assert People[2].pattern == KasturiSharma;
        KasturiSharmaMisses(t);
      } else if j == 3 {
        assert People[3].pattern == AjaySharma;
        AjaySharmaMisses(t);
      } else if j == 4 {
        assert People[4].pattern == DeepakVishwakarma;
        DeepakVishwakarmaMisses(t);
      } else if j == 5 {
        assert People[5].pattern == AnanditaJangra;
        AnanditaJangraMisses(t);
      } else if j == 6 {
        assert People[6].pattern == DhruvParashar;
        DhruvParasharMisses(t);
      } else if j == 7 {
        assert People[7].pattern == Karanveer;
        KaranveerMisses(t);
      } else if j == 8 {
        assert People[8].pattern == KaranTalwar;
        KaranTalwarMisses(t);
      } else if j == 9 {
        assert People[9].pattern == PragunMagan;
        PragunMaganMisses(t);
      } else if j == 10 {
        assert People[10].pattern == YawarRashid;
        YawarRashidMisses(t);
      } else if j == 11 {
        assert People[11].pattern == HiteshBhagat;
        HiteshBhagatMisses(t);
      } else if j == 12 {
        assert People[12].pattern == AkhriebuPucho;
        AkhriebuPuchoMisses(t);
      } else if j == 13 {
        assert People[13].pattern == BhupeshJingar;
        BhupeshJingarMisses(t);
      } else if j == 14 {
        assert People[14].pattern == VivekTanti;
        VivekTantiMisses(t);
      } else if j == 15 {
        assert People[15].pattern == VishalTanti;
        VishalTantiMisses(t);
      } else if j == 16 {
        assert People[16].pattern == GauravYadav;
        GauravYadavMisses(t);
      } else if j == 17 {
        assert People[17].pattern == Jegendra;
        JegendraMisses(t);
      } else {
        assert People[18].pattern == ParthSingh;
        ParthSinghMisses(t);
      }
    }
  }

  lemma LowerCaseDominos(t: string)
    requires t == "dominos"
    ensures CategorizeName(t) == "Dominos"
  {
    NoPersonInDominos(t);
    assert MatchAt(Dominos, t, 0);
    DominosAfterPeople(t);
  }

  lemma DominosSpellings()
    ensures SameFold("Dominos", "dominos")
    ensures SameFold("DOMINOS", "dominos")
  {
    assert FoldAll("Dominos") == "dominos";
    assert FoldAll("DOMINOS") == "dominos";
  }

  /** "DOMINOS", "Dominos" and "dominos" are all labelled "Dominos". */
  lemma DominosInAnyCase(t: string)
    requires t == "dominos" || t == "Dominos" || t == "DOMINOS"
    ensures CategorizeName(t) == "Dominos"
  {
    var lower := "dominos";
    LowerCaseDominos(lower);
    DominosSpellings();
    CategorizeNameIgnoresCase(t, lower);
  }
}

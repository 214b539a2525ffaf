/**
 * The counterparty table of `categorize_name`, as data: the rules in the
 * order the source's dict literal lists them, each label with its pattern
 * written in the combinators of module Regex.  Literals keep the source's
 * spelling (upper case included); matching folds case on both sides.
 */
module NameTable {
  import opened Regex

  datatype Rule = Rule(category: string, pattern: Regex)

  /** `\b(r)\b`: r must stand as a whole word. */
  function Word(r: Regex): Regex
  {
    Cat(Boundary, Cat(r, Boundary))
  }

  /** The BEL character that Python's `\a` escape stands for. */
  const Bel: char := '\U{7}'

  const Table: seq<Rule> := People + Merchants + Services

  const People: seq<Rule> := [
    Rule("Vyom", Vyom),
    Rule("Kanishq Sharma", KanishqSharma),
    Rule("Kasturi Sharma", KasturiSharma),
    Rule("Ajay Sharma", AjaySharma),
    Rule("Deepak Vishwakarma", DeepakVishwakarma),
    Rule("Anandita Jangra", AnanditaJangra),
    Rule("Dhruv Parashar", DhruvParashar),
    Rule("Karanveer", Karanveer),
    Rule("Karan Talwar", KaranTalwar),
    Rule("Pragun Magan", PragunMagan),
    Rule("Yawar Rashid", YawarRashid),
    Rule("Hitesh Bhagat", HiteshBhagat),
    Rule("Akhriebu Pucho", AkhriebuPucho),
    Rule("Bhupesh Jingar", BhupeshJingar),
    Rule("Vivek Tanti", VivekTanti),
    Rule("Vishal Tanti", VishalTanti),
    Rule("Gaurav Yadav", GauravYadav),
    Rule("Jegendra", Jegendra),
    Rule("Parth Singh", ParthSingh)
  ]

  const Merchants: seq<Rule> := [
    Rule("Dominos", Dominos),
    Rule("Bagril Biotech", BagrilBiotech),
    Rule("Balaji Store", BalajiStore),
    Rule("Cognizant", Cognizant),
    Rule("Zomato", Zomato),
    Rule("Amazon", Amazon),
    Rule("Rento Mojo", RentoMojo),
    Rule("DBHVN", Dbhvn),
    Rule("Bookmyshow", Bookmyshow),
    Rule("Makemytrip", Makemytrip),
    Rule("Flipkart", Flipkart),
    Rule("Swiggy", Swiggy),
    Rule("Blinkit", Blinkit),
    Rule("Licious", Licious),
    Rule("Vendiman", Vendiman)
  ]

  const Services: seq<Rule> := [
    Rule("Airtel", Airtel),
    Rule("Aditya Birla", AdityaBirla),
    Rule("Uber", Uber),
    Rule("Ola", Ola),
    Rule("Netflix", Netflix),
    Rule("YouTube", Youtube),
    Rule("Google", Google),
    Rule("Paytm Wallet", PaytmWallet),
    Rule("Personal Loan", PersonalLoan),
    Rule("Kotak", Kotak)
  ]

  // The patterns, one per rule, in table order.

  const Vyom: Regex :=
    Word(Alt(Lit("vyomdeepans"), Alt(Lit("vyom"), Alt(Lit("vyom deepansh"),
         Alt(Lit("8447156697"), Alt(Lit("9958121100"), Alt(Lit("fd booked"),
         Alt(Lit("rd booked"), Lit("vyomdeepansh-1")))))))))
  const KanishqSharma: Regex :=
    Word(Alt(Lit("muzicmapass"), Alt(Cat(Lit("kanishq"), Opt(Lit(" sharma"))),
         Alt(Lit("kan"), Alt(Lit("9873683245"), Lit("8433204684"))))))
  const KasturiSharma: Regex :=
    Word(Alt(Cat(Lit("kast"), Opt(Alt(Cat(Lit("oori"), Opt(Lit("sharma"))), Lit("oorisha")))),
         Alt(Lit("8789816580"), Lit("KASTURI SHAR"))))
  const AjaySharma: Regex :=
    Word(Alt(Lit("ajay sharma"), Lit("9833640145")))
  const DeepakVishwakarma: Regex :=
    Word(Cat(Lit("deepak "), Alt(Lit("vishwakarma"), Lit("kumar vi"))))
  const AnanditaJangra: Regex :=
    Word(Alt(Cat(Lit("anandita"), Opt(Lit(" jangra"))), Alt(Lit("8979655500"), Lit("ananditajangra1"))))
  const DhruvParashar: Regex :=
    Word(Lit("dhruv parashar"))
  const Karanveer: Regex :=
    Word(Alt(Lit("karancr8999"), Alt(Lit("karanveer"), Alt(Lit("971585216969"), Lit("9646862136")))))
  const KaranTalwar: Regex :=
    Word(Lit("karan talwar"))
  const PragunMagan: Regex :=
    Word(Alt(Lit("pragun magan"), Lit("8447783423")))
  const YawarRashid: Regex :=
    Word(Alt(Lit("yawar rashid"), Lit("9956394027")))
  const HiteshBhagat: Regex :=
    Word(Alt(Cat(Lit("hitesh"), Opt(Alt(Lit(" bhagat"), Lit("bhaga")))),
         Alt(Lit("hit"), Alt(Lit("ICICX5879"), Lit("8447299009")))))
  const AkhriebuPucho: Regex :=
    Word(Alt(Cat(Lit("akhriebu"), Opt(Lit(" pucho"))), Lit("9582384807")))
  const BhupeshJingar: Regex :=
    Word(Alt(Lit("bhupesh jingar"), Alt(Lit("darsh jing"), Lit("ICICX7180"))))
  const VivekTanti: Regex :=
    Word(Alt(Cat(Lit("vivek"), Opt(Alt(Lit(" tanti"), Lit("tanti5")))), Lit("9172603649")))
  const VishalTanti: Regex :=
    Word(Alt(Cat(Lit("vishal"), Opt(Alt(Lit(" tanti"), Alt(Lit("tanti"), Lit(".tant"))))),
         Alt(Lit("UTIBX8285"), Lit("9774973923"))))
  const GauravYadav: Regex :=
    Word(Alt(Lit("1993ygaurav"), Lit("Gaurav Yadav")))
  const Jegendra: Regex :=
    Word(Lit("jegendermn7"))
  const ParthSingh: Regex :=
    Word(Alt(Lit("parth singh"), Lit("9910270502")))
  const Dominos: Regex :=
    Word(Lit("dominos"))
  const BagrilBiotech: Regex :=
    Lit("bagril")
  const BalajiStore: Regex :=
    Alt(Lit("balaji"), Lit("bala ji"))
  const Cognizant: Regex :=
    Alt(Cat(Boundary, Cat(Lit("COGNIZANT"), Boundary)),
        Cat(Boundary, Cat(Lit("COGNIZ"), Cat(AnyLazy, Boundary))))
  const Zomato: Regex :=
    Cat(Boundary, Cat(Lit("Zomato"), Cat(Boundary, Opt(Alt(Lit(" Media Pr"), Lit(" Ltd"))))))
  const Amazon: Regex :=
    Alt(Cat(Lit([Bel]), Lit("mazon")),
    Alt(Lit("amazon@apl"),
    Alt(Lit("you are pay"),
    Alt(Lit("amazon india"),
    Alt(Lit("amazon pay"),
        Cat(Lit("amazon seller"), Boundary))))))
  const RentoMojo: Regex :=
    Word(Alt(Lit("edunetwork"), Alt(Lit("rento"), Alt(Lit("rentomojo"),
         Alt(Lit("rentomojorazorp"), Lit("rentomojorentpa"))))))
  const Dbhvn: Regex :=
    Word(Alt(Lit("dakshin"), Lit("dbhvn")))
  const Bookmyshow: Regex :=
    Word(Lit("bookmyshow"))
  const Makemytrip: Regex :=
    Word(Lit("makemytrip"))
  const Flipkart: Regex :=
    Word(Alt(Lit("flipka"), Lit("flipkart")))
  const Swiggy: Regex :=
    Word(Lit("swiggy"))
  const Blinkit: Regex :=
    Word(Alt(Lit("grofers"), Lit("blinkit")))
  const Licious: Regex :=
    Word(Lit("licious"))
  const Vendiman: Regex :=
    Cat(Lit("vendiman"), Opt(Lit(" pvt ltd")))
  const Airtel: Regex :=
    Word(Alt(Lit("airtel"), Alt(Lit("bharti"), Lit("BhartiAirte"))))
  const AdityaBirla: Regex :=
    Word(Alt(Lit("aditya birla fa"), Lit("ABFL")))
  const Uber: Regex :=
    Word(Alt(Lit("uberrides"), Lit("uber")))
  const Ola: Regex :=
    Cat(Boundary, Cat(Lit("ola"), Cat(Spaces, Cat(Alt(Lit("money"), Lit("financial")), Boundary))))
  const Netflix: Regex :=
    Cat(Boundary, Cat(Lit("netflix"), Cat(Opt(Cat(Space, Lit("com"))), Boundary)))
  const Youtube: Regex :=
    Word(Alt(Cat(Lit("sold by"), Cat(Spaces, Lit("youtube"))),
             Cat(Lit("youtube"), Opt(Cat(Opt(Space), Lit("prem"))))))
  const Google: Regex :=
    Word(Lit("google india di"))
  const PaytmWallet: Regex :=
    Word(Alt(Lit("payt"), Lit("add-money")))
  const PersonalLoan: Regex :=
    Word(Alt(Lit("SPLN"), Lit("PDL")))
  const Kotak: Regex :=
    Alt(Cat(Boundary, Cat(Lit("ch"), Cat(Opt(Lit("r")), Cat(Lit("g"), Opt(Lit("s")))))),
    Alt(Lit("annual fee"),
        Cat(Lit("cw fee"), Boundary)))
}

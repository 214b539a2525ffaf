# Counterparty classifier of the bank-statement analyser

This project models the counterparty classifier of `app_v1.py` in Dafny and proves properties of the model.

- `categorize_name` walks an ordered table of (label, regular expression) rules. There are 44 rules: 19 people, 15 merchants and 10 services. It returns the label of the first rule whose pattern `re.search` finds anywhere in the text, ignoring case. When no rule matches it returns the sentinel `"Other"`.
- `combined_function_name` tries three tiers in order: the structural name extractor, then `categorize_name`, then the brand table. Each later tier is consulted only when every earlier tier answered `"Other"`.

Files:

- `regex.dfy` (module `Regex`) models the part of Python's `re` syntax that the table uses:
  - literals, compared case-insensitively;
  - `\b`, `\s`, `\s+` and `.*?`;
  - concatenation and alternation;
  - optional groups, written as an alternation with the empty regex.

  `Search` is true exactly when `re.search` returns a match. The matcher only decides whether a match exists, so the difference between lazy and greedy repetition and the order of alternatives does not matter.
- `name_table.dfy` (module `NameTable`) holds the table as data. The rules are in the source's order and each literal keeps the source's spelling. It preserves several quirks of the source:
  - the `\a` at the start of the Amazon pattern is the BEL character;
  - the Kotak pattern `\bchr?gs?|annual fee|cw fee\b` is three alternatives, because alternation binds loosest, so each `\b` belongs to one alternative only;
  - some rules carry no `\b` at all (Bagril Biotech, Balaji Store, Vendiman and most of Amazon).
- `classifier.dfy` (module `Classifier`) holds:
  - the first-match search and `categorize_name`;
  - the three-tier fallback chain, with `extract_name` and `categorize_brands` passed in as functions, because their definitions are not part of this model;
  - the general laws of first-match search.
- `table_facts.dfy` (module `TableFacts`) proves what particular rules accept, and how table order settles texts that several rules match.
- `dominos_example.dfy` (module `DominosExample`) works one whole classification through the table: `"dominos"`, `"Dominos"` and `"DOMINOS"` are all labelled `"Dominos"`.

## Model

| member | source | states |
|---|---|---|
| Regex.Fold | app_v1.py:53 | `re.IGNORECASE` on ASCII: an upper-case letter maps to its lower-case form; every other character is unchanged |
| Regex.FoldAll | app_v1.py:53 | the lower-cased text: no upper-case ASCII letter is left, and it agrees with the original up to case |
| Regex.FoldIdempotent | app_v1.py:53 | folding twice is folding once, and folding keeps a character's word, whitespace and newline class |
| Regex.Opt | app_v1.py:5-49 | an optional part, `(?:r)?` or `r?`: the alternation of r with the empty regex |
| Regex.IsWord | app_v1.py:4-49 | the word characters `\w` that `\b` looks at: ASCII letters, digits and `_` |
| Regex.IsSpace | app_v1.py:43-45 | `\s`: the characters Python's `str.isspace` accepts |
| Regex.IsBoundary | app_v1.py:4-49 | `\b` at position i: exactly one of the characters on either side of i is a word character, with the text's ends counting as non-word |
| Regex.LitAt | app_v1.py:53 | a literal occurs at position i, compared up to ASCII case |
| Regex.MatchStack | app_v1.py:53 | a sequence of patterns matches some prefix of the text from position i onwards, trying every way through alternations, optional groups, `\s+` and `.*?` |
| Regex.MatchAt | app_v1.py:53 | a pattern matches some substring that begins at position i |
| Regex.SearchFrom | app_v1.py:53 | the scan of `re.search` over the start positions i to the end of the text |
| Regex.Search | app_v1.py:53 | `re.search(pattern, text, re.IGNORECASE)` is not None |
| Regex.LitAtChars | app_v1.py:53 | a literal occurs at position i exactly when it fits in the text and each character equals the literal's character up to case |
| Regex.SearchFromSpec | app_v1.py:53 | the search loop from position i succeeds exactly when the pattern matches at some start position j ≥ i |
| Regex.SearchSpec | app_v1.py:53 | `re.search` finds the pattern exactly when the pattern matches at some start position from 0 to the end of the text |
| Regex.MatchStackIgnoresCase | app_v1.py:53 | matching gives the same answer on two texts that agree up to ASCII case, for every pattern, continuation and position |
| Regex.SearchIgnoresCase | app_v1.py:53 | `re.search` with `re.IGNORECASE` gives the same answer on two texts that agree up to case |
| Regex.LitAtConcat | app_v1.py:53 | a literal a+b occurs at i exactly when a occurs at i and b occurs right after it |
| Regex.LazyReachesBoundary | app_v1.py:27 | right after a word character, `.*?\b` always succeeds, because a boundary is reached at the end of the word run without crossing a newline |
| Regex.MatchStackAtEnd | app_v1.py:53 | with no text left, a sequence of patterns matches only if every pattern in it can match the empty string |
| Regex.MatchAtEnd | app_v1.py:53 | a pattern that cannot match the empty string never matches at the end of the text |
| NameTable.Table | app_v1.py:3-50 | the dict literal: `Table[k]` is its k-th entry, label and pattern as written, in insertion order, which is the order `patterns.items()` walks |
| NameTable.People | app_v1.py:4-22 | the 19 person entries, Vyom to Parth Singh |
| NameTable.Merchants | app_v1.py:24-38 | the 15 merchant entries, Dominos to Vendiman |
| NameTable.Services | app_v1.py:40-49 | the 10 service entries, Airtel to Kotak |
| NameTable.Word | app_v1.py:4-49 | `\b(r)\b`: r between two word boundaries |
| NameTable.Bel | app_v1.py:29 | the character of Python's `\a` escape, BEL (code 7) |
| NameTable.Vyom | app_v1.py:4 | `\b(…)\b` around the eight alternatives vyomdeepans, vyom, vyom deepansh, two phone numbers, fd booked, rd booked and vyomdeepansh-1 |
| NameTable.KanishqSharma | app_v1.py:5 | `\b(…)\b` around muzicmapass, kanishq with optional " sharma", kan and two phone numbers |
| NameTable.KasturiSharma | app_v1.py:6 | `\b(…)\b` around kast with optional oori(sharma)? or oorisha, a phone number and KASTURI SHAR |
| NameTable.AjaySharma | app_v1.py:7 | `\b(…)\b` around ajay sharma and a phone number |
| NameTable.DeepakVishwakarma | app_v1.py:8 | `\b(…)\b` around "deepak " followed by vishwakarma or kumar vi |
| NameTable.AnanditaJangra | app_v1.py:9 | `\b(…)\b` around anandita with optional " jangra", a phone number and ananditajangra1 |
| NameTable.DhruvParashar | app_v1.py:10 | `\b(dhruv parashar)\b` |
| NameTable.Karanveer | app_v1.py:11 | `\b(…)\b` around karancr8999, karanveer and two phone numbers |
| NameTable.KaranTalwar | app_v1.py:12 | `\b(karan talwar)\b` |
| NameTable.PragunMagan | app_v1.py:13 | `\b(…)\b` around pragun magan and a phone number |
| NameTable.YawarRashid | app_v1.py:14 | `\b(…)\b` around yawar rashid and a phone number |
| NameTable.HiteshBhagat | app_v1.py:15 | `\b(…)\b` around hitesh with optional " bhagat" or bhaga, hit, ICICX5879 and a phone number |
| NameTable.AkhriebuPucho | app_v1.py:16 | `\b(…)\b` around akhriebu with optional " pucho", and a phone number |
| NameTable.BhupeshJingar | app_v1.py:17 | `\b(…)\b` around bhupesh jingar, darsh jing and ICICX7180 |
| NameTable.VivekTanti | app_v1.py:18 | `\b(…)\b` around vivek with optional " tanti" or tanti5, and a phone number |
| NameTable.VishalTanti | app_v1.py:19 | `\b(…)\b` around vishal with optional " tanti", tanti or ".tant", UTIBX8285 and a phone number |
| NameTable.GauravYadav | app_v1.py:20 | `\b(…)\b` around 1993ygaurav and Gaurav Yadav |
| NameTable.Jegendra | app_v1.py:21 | `\b(jegendermn7)\b` |
| NameTable.ParthSingh | app_v1.py:22 | `\b(…)\b` around parth singh and a phone number |
| NameTable.Dominos | app_v1.py:24 | `\b(dominos)\b` |
| NameTable.BagrilBiotech | app_v1.py:25 | the bare literal bagril, with no boundary |
| NameTable.BalajiStore | app_v1.py:26 | balaji or bala ji, with no boundary |
| NameTable.Cognizant | app_v1.py:27 | `\bCOGNIZANT\b` or `\bCOGNIZ.*?\b` |
| NameTable.Zomato | app_v1.py:28 | `\bZomato\b` followed by an optional " Media Pr" or " Ltd" |
| NameTable.Amazon | app_v1.py:29 | six alternatives: BEL then mazon, amazon@apl, you are pay, amazon india, amazon pay, and amazon seller followed by `\b` |
| NameTable.RentoMojo | app_v1.py:30 | `\b(…)\b` around edunetwork, rento, rentomojo, rentomojorazorp and rentomojorentpa |
| NameTable.Dbhvn | app_v1.py:31 | `\b(…)\b` around dakshin and dbhvn |
| NameTable.Bookmyshow | app_v1.py:32 | `\b(bookmyshow)\b` |
| NameTable.Makemytrip | app_v1.py:33 | `\b(makemytrip)\b` |
| NameTable.Flipkart | app_v1.py:34 | `\b(…)\b` around flipka and flipkart |
| NameTable.Swiggy | app_v1.py:35 | `\b(swiggy)\b` |
| NameTable.Blinkit | app_v1.py:36 | `\b(…)\b` around grofers and blinkit |
| NameTable.Licious | app_v1.py:37 | `\b(licious)\b` |
| NameTable.Vendiman | app_v1.py:38 | vendiman followed by an optional " pvt ltd", with no boundary |
| NameTable.Airtel | app_v1.py:40 | `\b(…)\b` around airtel, bharti and BhartiAirte |
| NameTable.AdityaBirla | app_v1.py:41 | `\b(…)\b` around aditya birla fa and ABFL |
| NameTable.Uber | app_v1.py:42 | `\b(…)\b` around uberrides and uber |
| NameTable.Ola | app_v1.py:43 | `\bola`, then `\s+`, then money or financial, then `\b` |
| NameTable.Netflix | app_v1.py:44 | `\bnetflix`, then an optional `\s` followed by com, then `\b` |
| NameTable.Youtube | app_v1.py:45 | `\b(…)\b` around "sold by" then `\s+` then youtube, or youtube followed by an optional `\s?prem` |
| NameTable.Google | app_v1.py:46 | `\b(google india di)\b` |
| NameTable.PaytmWallet | app_v1.py:47 | `\b(…)\b` around payt and add-money |
| NameTable.PersonalLoan | app_v1.py:48 | `\b(…)\b` around SPLN and PDL |
| NameTable.Kotak | app_v1.py:49 | three alternatives: `\bch`, optional r, g, optional s; annual fee; and cw fee followed by `\b` |
| Classifier.Other | app_v1.py:55-63 | the sentinel `'Other'` that `categorize_name` returns when no rule matches, and that `combined_function_name` tests for |
| Classifier.FirstMatch | app_v1.py:52-55 | the answer is the label of the first rule that matches, with every earlier rule failing, or `"Other"` when no rule matches |
| Classifier.NoRuleLabelledOther | app_v1.py:4-49 | no rule in the table is labelled `"Other"` |
| Classifier.CategorizeName | app_v1.py:2-55 | the result is `"Other"` or a label of the table; it is `"Other"` exactly when no pattern matches; otherwise it is the label of the first matching rule |
| Classifier.CombinedName | app_v1.py:59-65 | an extractor answer other than `"Other"` is returned unchanged; otherwise the first matching rule's label is returned if some rule matches; otherwise the brand answer is returned; the result is `"Other"` exactly when all three tiers give `"Other"` |
| Classifier.FirstMatchWins | app_v1.py:52-54 | if rule j matches, the answer comes from rule j or an earlier rule, which is the first rule that matches |
| Classifier.FirstMatchAppend | app_v1.py:52-54 | searching table a followed by table b: b is consulted exactly when no rule of a matches |
| Classifier.FirstMatchIgnoresCase | app_v1.py:53 | the first-match answer of any table is the same on two texts that agree up to case |
| Classifier.CategorizeNameIgnoresCase | app_v1.py:53 | `categorize_name` gives the same label to texts that agree up to case |
| Classifier.BrandsOnlyAsLastResort | app_v1.py:61-64 | when the extractor does not answer `"Other"`, or some name rule matches, the result does not depend on the brand table |
| TableFacts.WordStartsAtBoundary | app_v1.py:4-22 | a rule wrapped in `\b(...)\b` only matches at a word boundary |
| TableFacts.HiteshMatchesWord | app_v1.py:15 | "hit" standing as a whole word (a boundary before and after it) matches the Hitesh Bhagat rule, at any position of any text |
| TableFacts.HiteshNotInsideWord | app_v1.py:15 | "white" does not match the Hitesh Bhagat rule, although it contains "hit" |
| TableFacts.BagrilUnanchored | app_v1.py:25 | "bagril" matches the Bagril Biotech rule at any position, with no boundary required |
| TableFacts.BalajiUnanchored | app_v1.py:26 | "balaji" or "bala ji" matches the Balaji Store rule at any position |
| TableFacts.VendimanUnanchored | app_v1.py:38 | "vendiman" matches the Vendiman rule at any position |
| TableFacts.BalajiInsideWord | app_v1.py:26 | the Balaji Store rule matches "shribalaji", where "balaji" sits inside a longer word |
| TableFacts.BagrilInsideWord | app_v1.py:25 | the Bagril Biotech rule matches "abagrilx", where "bagril" sits inside a longer word |
| TableFacts.DominosNotInsideWord | app_v1.py:24 | the anchored Dominos rule does not match "xdominos" |
| TableFacts.CognizantIsPrefixRule | app_v1.py:27 | the Cognizant rule matches at i exactly when i is a word boundary and "cogniz" occurs there, which is the same as `\bcogniz` |
| TableFacts.AmazonSplit | app_v1.py:29 | the Amazon rule matches exactly when one of its six alternatives matches |
| TableFacts.AmazonBel | app_v1.py:29 | the first Amazon alternative is the BEL character followed by "mazon" |
| TableFacts.AmazonAlternatives | app_v1.py:29 | the Amazon rule matches at i exactly when: BEL+"mazon" occurs there; or "amazon@apl", "you are pay", "amazon india" or "amazon pay" occurs there; or "amazon seller" occurs there followed by a boundary |
| TableFacts.PlainAmazonMissed | app_v1.py:29 | the bare text "amazon" does not match the Amazon rule |
| TableFacts.KotakAlternatives | app_v1.py:49 | the Kotak rule matches at i exactly when: "chg" or "chrg" occurs at a boundary; or "annual fee" occurs, with no boundary required on either side; or "cw fee" occurs followed by a boundary. The trailing `s?` never decides a match |
| TableFacts.AjayOutranksLaterRules | app_v1.py:4-7 | a text matching the Ajay Sharma rule is labelled with one of the first four labels, never a later one such as Dominos; it is labelled "Ajay Sharma" when the three earlier rules do not match |
| TableFacts.DominosAfterPeople | app_v1.py:4-24 | a text that matches no person rule but matches the Dominos rule is labelled "Dominos" |
| TableFacts.KanMatchesKanishq | app_v1.py:5 | "kan vyom" matches the Kanishq Sharma rule, through its alternative "kan" |
| TableFacts.KanVyomMatchesVyom | app_v1.py:4 | "kan vyom" matches the Vyom rule, through its alternative "vyom" |
| TableFacts.VyomAlwaysWins | app_v1.py:4 | every text that matches the first rule is labelled "Vyom" |
| TableFacts.EarlierRuleWins | app_v1.py:4-5 | "kan vyom" matches the Kanishq Sharma rule but is labelled "Vyom", the earlier rule |
| DominosExample.NoPersonInDominos | app_v1.py:4-22 | no person rule matches "dominos" |
| DominosExample.LowerCaseDominos | app_v1.py:24 | "dominos" is labelled "Dominos" |
| DominosExample.DominosSpellings | app_v1.py:53 | "Dominos" and "DOMINOS" agree with "dominos" up to case |
| DominosExample.DominosInAnyCase | app_v1.py:24 | "dominos", "Dominos" and "DOMINOS" are all labelled "Dominos" |

## Left out

- `extract_name` and `categorize_brands` are called at app_v1.py:60 and app_v1.py:64 but are not defined in the file. They are parameters of type `string -> string`, and their rules are not modelled.
- Unicode word characters: Python's `\w` and `\b` on `str` patterns also treat non-ASCII letters and digits as word characters. The model's `\w` is ASCII letters, digits and `_`.
- Unicode case-insensitivity: Python also equates some non-ASCII characters with ASCII letters, for example KELVIN SIGN with `k` and LATIN SMALL LETTER DOTLESS I with `i`. The model folds ASCII letters only.
- Which substring matched, and the order in which the engine tries alternatives and repetitions, are not modelled. Only whether a match exists reaches the classifier.
- Non-string input: `re.search` raises on a value that is not a string, such as a missing spreadsheet cell. The model's input is always a string.
- The missing `import re` is not modelled, and neither is the rebuilding of the table on every call. The table is a single constant. The inline `(?i)` of the Kasturi Sharma pattern repeats `re.IGNORECASE` and has no separate effect.
- The rest of the application is outside the model: file upload, column normalisation, date and number parsing, charts and CSV export.
- AjayOutranksLaterRules: it proves "Ajay Sharma" for every text that matches the Ajay Sharma rule and none of the three earlier rules. The 19-character text "ajay sharma dominos" is not itself evaluated through the table.

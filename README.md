# XMLTeluqNote in Dafny

This project models the logic of LeoCode23/XMLTeluqNote, a collection of Java
programs written for an XML course, in Dafny. It also models the command-line
and bookkeeping logic of four Saxon test drivers kept in the same repository.
The course programs work on a DOM tree:

- `Bottin` edits a phone book.
- `Inventaire` and `Inventaire1` take sales off a stock file.
- `Transactions` sums each client's amounts.
- `compterelement` counts elements.
- `Arbre` prints a tree by depth.
- `modifierencodage` rewrites the XML declaration.
- `afficherRSS` and `ledevoir` print the titles of an RSS feed.

The drivers contribute option parsing, verdicts, counters, name mangling and
timing loops:

- the XQuery 1.0 conformance driver;
- the XQuery Update driver;
- the XML Schema driver;
- the XMark benchmark.

A parsed document is a `Dom.Node` value: an element with its tag, attributes
and children, a text node, a CDATA section, or any other node. A program that edits the document
in place is a class whose `children` field is the root's child list. A program
that prints is a class whose `output` field is the list of printed lines. Each
method is proved against a function of the old state. The properties the
programs promise are lemmas about those functions.

Shared modules:

- `Wrappers`: `Option` and `Result`.
- `Strings`: prefix tests, `indexOf`, `replaceAll`, `split`, trimming and ASCII
  case mapping, with Java's semantics.
- `JavaInt`: 32-bit `int` wrap-around, `Integer.parseInt` and
  `Integer.toString`.
- `Dom`: nodes, `getAttribute`, `getTextContent` and `getElementsByTagName` in
  document order.

## Model

| member | source | states |
|---|---|---|
| Strings.ContainsAt | XQuery/drivers/java/com/saxonica/testdriver/ee/XQuery10TestSuiteDriver.java:991 | a match at any position means `contains` holds |
| Strings.ContainsWitness | XQuery/drivers/java/com/saxonica/testdriver/ee/XQuery10TestSuiteDriver.java:991 | `contains` holds only when some position starts a match |
| Strings.IndexOf | XQuery/drivers/java/com/saxonica/testdriver/ee/XQuery10TestSuiteDriver.java:991 | `String.indexOf(String)`: -1 exactly when there is no occurrence; otherwise an occurrence starts at the result and none starts earlier |
| Strings.IndexOfChar | XQuery/drivers/java/com/saxonica/testdriver/ee/UpdateTestSuiteDriver.java:1166 | `String.indexOf(char)`: -1 exactly when the character is absent; otherwise its first position |
| Strings.LastIndexOfChar | XQuery/drivers/java/com/saxonica/testdriver/ee/UpdateTestSuiteDriver.java:483 | `String.lastIndexOf(char)`: -1 exactly when the character is absent; otherwise its last position |
| Strings.ReplaceAllLength | Java/modifierencodage.java:24 | `replaceAll` of a literal pattern changes the length by the length difference once per non-overlapping match |
| Strings.MatchCountZero | Java/modifierencodage.java:24 | there are no matches exactly when the text does not contain the pattern |
| Strings.NoRoomNoContains | Java/modifierencodage.java:24 | a text shorter than the pattern cannot contain it |
| Strings.ReplaceAllNoMatch | Java/modifierencodage.java:24 | `replaceAll` leaves a text without the pattern unchanged |
| Strings.OutputPrefixFromInput | Java/modifierencodage.java:24 | a prefix of the output that avoids the replacement's first character was already a prefix of the input |
| Strings.ReplaceAllRemovesPattern | Java/modifierencodage.java:24 | for a pattern and replacement that cannot recreate the pattern, no occurrence remains after `replaceAll` |
| Strings.Fields | Inventaire.java:97 | the separator-delimited fields: at least one, none containing the separator |
| Strings.FieldsJoin | Inventaire.java:97 | joining the fields with the separator gives back the line |
| Strings.DropTrailingEmpty | Inventaire.java:97 | `split` drops exactly the trailing empty fields and keeps the rest in order |
| Strings.RemoveWhitespace | Inventaire.java:103-104 | `replaceAll("\\s", "")` leaves no regex whitespace and never lengthens the text |
| Strings.RemoveWhitespaceNoSpace | Inventaire.java:103-104 | removing whitespace from a text that has none changes nothing |
| Strings.TrimStart | XQuery/drivers/java/com/saxonica/testdriver/ee/XQuery10TestSuiteDriver.java:1002-1003 | `trim` on the left: a suffix of the input that starts above space |
| Strings.TrimEnd | XQuery/drivers/java/com/saxonica/testdriver/ee/XQuery10TestSuiteDriver.java:1002-1003 | `trim` on the right: a prefix of the input that ends above space |
| Strings.Lower | XQuery/drivers/java/com/saxonica/testdriver/ee/XQuery10TestSuiteDriver.java:1314 | `toLowerCase` maps each character and keeps the length |
| Strings.Upper | XQuery/drivers/java/com/saxonica/testdriver/ee/XQuery10TestSuiteDriver.java:1328 | `toUpperCase` maps each character and keeps the length |
| JavaInt.Wrap32 | Inventaire.java:44 | the result is a 32-bit `int`, and an `int` is left as it is |
| JavaInt.WrapMod | Inventaire.java:44 | wrap-around equals two's-complement reduction modulo 2^32 |
| JavaInt.WrapSub | Inventaire.java:44 | wrapping each subtraction gives the same result as wrapping once at the end |
| JavaInt.WrapAdd | Transactions.java:45-50 | wrapping each addition gives the same result as wrapping once at the end |
| JavaInt.Digit | Inventaire.java:49 | the decimal digit character whose value is `d` |
| JavaInt.ParseDigits | Inventaire.java:44 | a successful parse consumed a non-empty string of digits |
| JavaInt.Signed | Inventaire.java:44 | a signed value is accepted only when it is a 32-bit `int` |
| JavaInt.ParseInt | Inventaire.java:44 | `Integer.parseInt` succeeds only on a non-empty string whose value is a 32-bit `int` |
| JavaInt.NatToString | Inventaire.java:49 | a non-empty digit string with no leading zero |
| JavaInt.ParseNatToString | Inventaire.java:49 | parsing the printed natural number gives it back |
| JavaInt.ParseIntToString | Inventaire.java:44-49 | `Integer.parseInt(Integer.toString(x)) == x` for every `int` |
| Dom.ChildNodes | Bottin.java:26 | a text node has no children; any other node has its own child list |
| Dom.GetAttribute | Bottin.java:33 | the attribute's value, or the empty string when it is missing |
| Dom.AttributeOf | Inventaire.java:44 | `getAttribute` on a node that is an element |
| Dom.SetAttribute | Bottin.java:65 | the element keeps its tag and children, and the one attribute gets the new value |
| Dom.GetSetAttribute | Bottin.java:65 | an attribute reads back the value just set, and every other attribute is unchanged |
| Dom.Preorder | Java/afficherRSS.java:19 | document order starts with the node itself |
| Dom.PreorderSeqAppend | Java/afficherRSS.java:19 | the document order of two sibling runs is that of the first, then that of the second |
| Dom.PreorderSeqSnoc | Java/afficherRSS.java:19 | adding one more child adds that child's subtree at the end |
| Dom.WithTagSound | Java/afficherRSS.java:19 | `getElementsByTagName` keeps exactly the elements with that tag |
| Dom.WithTagAppend | Java/afficherRSS.java:19 | filtering by tag distributes over concatenation, so document order is kept |
| Bottin.EffaceAll | Bottin.java:29-37 | the intended removal: no entry with the name remains, every other child is kept, and nothing is added |
| Bottin.EffaceLiveSubsequence | Bottin.java:29-37 | the children left by the loop over a live child list are a subsequence of the original children |
| Bottin.EffaceLiveKeepsOthers | Bottin.java:30-35 | the loop removes only entries with the name: the other children are exactly those the intended removal keeps |
| Bottin.EffaceLiveWithoutNeighbours | Bottin.java:30-35 | when no two matching entries are adjacent, the loop removes all of them |
| Bottin.EffaceStepKeep | Bottin.java:30-35 | one iteration over a child that does not match moves the index on and changes nothing |
| Bottin.EffaceStepRemove | Bottin.java:30-35 | one iteration over a matching child removes it, and the next index skips the child that slid into its place |
| Bottin.EffaceLiveSkipsNeighbour | Bottin.java:30-35 | two adjacent entries with the name: the loop leaves one of them, the intended removal leaves none |
| Bottin.PhonesOf | Bottin.java:46-56 | `cherche` prints at most one line per child, and at least one exactly when some entry has the name |
| Bottin.SetPhones | Bottin.java:61-69 | the update loop keeps the number of children |
| Bottin.AjouteShape | Bottin.java:59-75 | an existing name keeps the number of children; a new name appends one `personne` entry with that name; other entries are left alone |
| Bottin.ChercheAfterAjoute | Bottin.java:43-75 | after `ajoute`, `cherche` for that name finds it and prints only the new phone number |
| Bottin.PhonesAllEqual | Bottin.java:43-56 | when every entry with the name has the same phone number, `cherche` prints only that number |
| Bottin.AjouteIdempotent | Bottin.java:59-75 | running `ajoute` twice with the same name and number is the same as running it once |
| Bottin.Directory.constructor | Bottin.java:24-26 | the directory holds the root's children and has printed nothing |
| Bottin.Directory.Efface | Bottin.java:29-37 | the children become what the loop over the live list leaves; nothing is printed |
| Bottin.Directory.Cherche | Bottin.java:43-57 | the children are unchanged, and the phone numbers of the entries with the name are printed in document order |
| Bottin.Directory.Ajoute | Bottin.java:59-76 | the phone number of every entry with the name is updated, or one new entry is appended when there is none |
| Bottin.Directory.Run | Bottin.java:29-76 | dispatch on the first argument: it fails where Java would index past the arguments, and otherwise does exactly the chosen operation |
| Inventaire.SetQuantity | Inventaire.java:49-57 | writing the new quantity keeps the element's tag, children and product code |
| Inventaire.SetQuantityParses | Inventaire.java:49-57 | the quantity written back parses to the computed `int` |
| Inventaire.ModifierSpec | Inventaire.java:37-63 | a completed pass keeps the number of children |
| Inventaire.ModifierPointwise | Inventaire.java:37-63 | the pass completes exactly when every child can be processed, and then each child is processed on its own |
| Inventaire.ModifierAt | Inventaire.java:37-63 | in a completed pass, child `k` of the result is what processing old child `k` gives |
| Inventaire.ModifierStep | Inventaire.java:37-63 | one iteration of the loop: a child that throws ends the pass; otherwise its result goes before the rest |
| Inventaire.PrependAssoc | Inventaire.java:37-63 | prepending processed children in two steps is prepending them at once |
| Inventaire.ModifierEffect | Inventaire.java:39-59 | every element needs a parseable quantity and sale; elements with the product code get quantity minus sale, wrapped to 32 bits; other children are unchanged |
| Inventaire.DecrementEffect | Inventaire.java:39-59 | for one child: success means its quantity and the sale both parse; a child that is not an element or carries another code is unchanged; the one with the code gets quantity minus sale, wrapped to 32 bits, and reads back as that number |
| Inventaire.ModifierFailsOnBadQuantite | Inventaire.java:44 | one element whose quantity does not parse makes `modifier` throw, whatever its code |
| Inventaire.StockMayGoNegative | Inventaire.java:44-57 | nothing keeps the stock non-negative: selling 5 of a product with 1 in stock writes -4 |
| Inventaire.ParseLines | Inventaire.java:95-97 | one parsed sale per line |
| Inventaire.LineSaleFields | Inventaire.java:97-104 | a line with fewer than four fields throws; otherwise the sale is the third and fourth fields without whitespace |
| Inventaire.RunSales | Inventaire.java:95-112 | the count of completed sales never exceeds the number of lines |
| Inventaire.RunSalesStep | Inventaire.java:95-112 | a sale that throws stops the run with the stock as it was; otherwise the rest runs on the updated stock |
| Inventaire.RunSalesNext | Inventaire.java:95-112 | a first sale that succeeds leaves the result and the count to the rest of the sales, one more line applied |
| Inventaire.RunLines | Inventaire.java:95-112 | the count of completed lines never exceeds the number of lines |
| Inventaire.RunLinesStop | Inventaire.java:106-112 | when line `i` throws, the run from `i` on stops there: the stock stays as the first `i` lines left it and no further line counts |
| Inventaire.RunLinesNext | Inventaire.java:95-108 | when line `i` succeeds, the run from `i` on is the run from `i + 1` on the updated stock, plus that line |
| Inventaire.RunLinesSales | Inventaire.java:95-112 | running the raw lines is running the sales they parse to |
| Inventaire.RunLinesSalesStop | Inventaire.java:106-112 | a first line that throws leaves both runs with the stock unchanged and no line applied |
| Inventaire.RunLinesSalesNext | Inventaire.java:95-108 | a first line that succeeds: the raw and parsed runs agree on the stock and the count whenever they agree on the rest |
| Inventaire.DecrementElement | Inventaire.java:39-59 | an element that is processed gets its quantity minus the sale when the code matches, and is unchanged otherwise |
| Inventaire.ModifierQuantity | Inventaire.java:37-63 | after one sale, each element keeps its code, and its quantity drops by the sale when the code matches |
| Inventaire.ApplySaleQuantity | Inventaire.java:97-106 | one line takes its quantity off the matching product only |
| Inventaire.RunSalesQuantity | Inventaire.java:95-108 | when every line succeeds, each product's final stock is its initial stock minus the total sold under its code, wrapped to 32 bits |
| Inventaire.RunSalesFrom | Inventaire.java:95-108 | the same for a quantity that starts wrapped: the sales run off the unwrapped value and the result is wrapped once |
| Inventaire.RunSalesFirst | Inventaire.java:95-104 | in a run that applies every line, the first line keeps the child count, moves the quantity at `i` down by what it sells of that code, and leaves the rest of the run to come |
| Inventaire.RunSalesAll | Inventaire.java:95-108 | when every line succeeds, so does the first, and the rest all succeed on the updated stock |
| Inventaire.StockFile.constructor | Inventaire.java:31-33 | the stock holds the root's children |
| Inventaire.StockFile.Modifier | Inventaire.java:19-74 | the method succeeds exactly when the pass completes, and then the children are its result; a throw leaves the file as it was |
| Inventaire.StockFile.ApplyLine | Inventaire.java:97-106 | one line succeeds exactly when its sale applies to the stock, and then the children are the updated stock; a line that throws leaves them as they were |
| Inventaire.StockFile.ProcessCsv | Inventaire.java:83-117 | the stock and the applied count are those of running the lines, stopping at the first line that throws |
| Inventaire1.Step | Inventaire1.java:32-47 | a child that throws prints nothing |
| Inventaire1.ModifierSpec | Inventaire1.java:30-50 | a completed pass keeps the number of children |
| Inventaire1.ModifierStep | Inventaire1.java:30-50 | one iteration: a throw ends the pass with nothing more printed; otherwise the child's result and lines go before the rest |
| Inventaire1.ModifierNext | Inventaire1.java:30-50 | the loop invariant carried one index further: the processed prefix, the lines printed so far, and the untouched rest |
| Inventaire1.ResumeAssoc | Inventaire1.java:30-50 | resuming in two steps is resuming once with both prefixes |
| Inventaire1.StepAgrees | Inventaire1.java:37-43 | one child is processed exactly as in `Inventaire`, given the sold quantity as its decimal text |
| Inventaire1.ModifierAgrees | Inventaire1.java:30-50 | the resulting children are exactly those of `Inventaire.modifier` for the same sale |
| Inventaire1.ModifierFailsOnBadQuantite | Inventaire1.java:37 | one element whose quantity does not parse makes the pass throw, even when its code differs |
| Inventaire1.ModifierSucceeds | Inventaire1.java:30-50 | the pass completes exactly when every element's quantity parses |
| Inventaire1.ModifierPointwise | Inventaire1.java:30-50 | a completed pass processes each child on its own |
| Inventaire1.ModifierAt | Inventaire1.java:30-50 | in a completed pass, child `k` of the result is what processing old child `k` gives |
| Inventaire1.ModifierEffect | Inventaire1.java:37-44 | an element with the code gets its quantity minus the sale, wrapped to 32 bits; every other child is unchanged |
| Inventaire1.StepEffect | Inventaire1.java:37-44 | processing one child: an element with the code gets its quantity minus the sale, wrapped, which reads back as that `int`; any other child is kept |
| Inventaire1.ModifierPrints | Inventaire1.java:38-44 | when every quantity parses, the printed lines are a before line and an after line for each matching element, in document order |
| Inventaire1.Example321 | Inventaire1.java:64-66 | with product 321 at 10, the fixed sale of 4 leaves 6 and prints the two lines for 10 and 6 |
| Inventaire1.StockFile.constructor | Inventaire1.java:24-26 | the stock holds the root's children and has printed nothing |
| Inventaire1.StockFile.Visit | Inventaire1.java:32-47 | one child's result and printed lines, as one step of the pass computes them |
| Inventaire1.StockFile.Modifier | Inventaire1.java:13-60 | succeeds exactly when the pass completes; the children are its result, or unchanged after a throw; the lines printed before any throw are kept |
| Inventaire1.StockFile.SellFixed | Inventaire1.java:64-69 | `modifier` with product "321" and quantity 4 |
| Transactions.TotalFails | Transactions.java:39-50 | summing a client's amounts throws exactly when one of them does not parse |
| Transactions.TotalNext | Transactions.java:39-50 | one iteration of the inner loop: an amount that does not parse makes the whole sum throw; otherwise it is added to the running sum |
| Transactions.TotalLast | Transactions.java:39-50 | the sum of the first `a + 1` amounts is the sum of the first `a` plus the next one |
| Transactions.TotalPrefixFails | Transactions.java:39-50 | once a prefix of the amounts fails to parse, the whole sum fails |
| Transactions.SumLines | Transactions.java:52-53 | the `Somme` line is printed at most once, and exactly when there are transactions and every amount parses |
| Transactions.Blocks | Transactions.java:25-60 | one block of output per client |
| Transactions.BlocksTail | Transactions.java:25-60 | the first block is the first client's; the rest are the remaining clients' |
| Transactions.ReportCompletes | Transactions.java:25-60 | the program runs to the end exactly when every client's amounts all parse |
| Transactions.ReportLength | Transactions.java:25-60 | a complete run prints one name line per client and one sum line per client that has transactions |
| Transactions.ChainNext | Transactions.java:25-60 | the outer loop carried one client further: a client that throws ends the output with its block; otherwise the rest follows |
| Transactions.Console.constructor | Transactions.java:11-19 | nothing has been printed |
| Transactions.Console.PrintClient | Transactions.java:28-54 | prints the client's block and reports whether its amounts all parse |
| Transactions.Console.PrintSum | Transactions.java:37-54 | prints the wrapped sum once after the last transaction, and fails when an amount does not parse |
| Transactions.Console.Run | Transactions.java:19-61 | the output is the report over the document's `client` elements in document order |
| Transactions.Console.PrintClients | Transactions.java:25-60 | the output is the report over the given clients, up to the first one that throws |
| Arbre.Lines | Arbre.java:18-19 | one printed line per node |
| Arbre.LinesAppend | Arbre.java:43-45 | the lines of two node runs are those of the first run, then those of the second |
| Arbre.DumpShape | Arbre.java:6-47 | `traite` prints one line per node of the subtree, in document order, starting with the node itself |
| Arbre.LineForm | Arbre.java:18-19 | each line is `Nom: `, the node name, ` Valeur: `, then the node value, with no indentation |
| Arbre.CharacterDataLines | Arbre.java:18-19 | a text node prints as `#text` and a CDATA section as `#cdata-section`, both with their data, so the two lines differ |
| Arbre.CdataExample | Arbre.java:49-61 | the document `<a><![CDATA[x]]></a>`, parsed without coalescing, prints the document line, the `a` line and `Nom: #cdata-section Valeur: x` |
| Arbre.DumpIgnoresAttributes | Arbre.java:18-19 | attributes are not nodes of the walk: setting one leaves the printout unchanged |
| Arbre.Printer.constructor | Arbre.java:48-59 | nothing has been printed |
| Arbre.Printer.Traite | Arbre.java:6-47 | the recursive walk prints exactly the document-order dump of the node, whatever the depth argument |
| Arbre.Printer.Run | Arbre.java:59-61 | `main` prints the dump of the whole document |
| Arbre.TraiteStep | Arbre.java:43-45 | after the child at `k`, the output holds the dumps of the first `k + 1` children |
| Arbre.TraiteEnd | Arbre.java:18-46 | the node's line followed by its children's dumps is the node's dump |
| CompterElement.ElementsInAppend | CoursXML/compterelement.java:7-16 | counting elements distributes over concatenation |
| CompterElement.ElementCountSplit | CoursXML/compterelement.java:7-16 | the count of a node is one for the node when it is an element, plus the counts of its children |
| CompterElement.TextCountsNothing | CoursXML/compterelement.java:8-11 | a text node counts nothing |
| CompterElement.OtherCountsChildren | CoursXML/compterelement.java:8-14 | a node that is not an element counts only what its children count |
| CompterElement.PreorderPrefix | CoursXML/compterelement.java:12-14 | one more child adds that child's count |
| CompterElement.CompteElementEnfant | CoursXML/compterelement.java:7-16 | returns the counter plus the number of elements in the subtree, the node included |
| CompterElement.DocumentCountTwice | CoursXML/compterelement.java:25-33 | when the document's other children are leaves, the result is the element count plus the number of document elements |
| CompterElement.DocumentCountOneRoot | CoursXML/compterelement.java:19-38 | for a document with one document element, `compteElement` returns the number of elements plus one: the document element is counted twice |
| CompterElement.OnlyOneElement | CoursXML/compterelement.java:26-28 | a list whose only element is at one position holds one element |
| CompterElement.NoElements | CoursXML/compterelement.java:26-28 | a list without elements counts zero |
| CompterElement.CompteElement | CoursXML/compterelement.java:19-38 | 0 when the parse throws; otherwise one plus the subtree count for each element among the document's children |
| ModifierEncodage.JoinedSnoc | Java/modifierencodage.java:21-23 | reading one more line appends it and one line separator to the content |
| ModifierEncodage.ModifierEncodage | Java/modifierencodage.java:11-26 | the content written back is the lines read, each followed by the separator, with every `encoding="utf-8"` replaced by `encoding="ISO-8859-1"` |
| ModifierEncodage.JoinedFields | Java/modifierencodage.java:21-23 | with a one-character separator absent from the lines, splitting the content gives the lines back, and then one empty field |
| ModifierEncodage.FirstSeparator | Java/modifierencodage.java:21-23 | the first separator in the content ends the first line |
| ModifierEncodage.PatternIsIsolated | Java/modifierencodage.java:12-13 | the replacement cannot recreate the pattern, at any overlap |
| ModifierEncodage.PatchedLength | Java/modifierencodage.java:24 | each replacement lengthens the content by 5 characters |
| ModifierEncodage.PatchedHasNoPattern | Java/modifierencodage.java:24 | no `encoding="utf-8"` is left in the written content |
| ModifierEncodage.PatchIdempotent | Java/modifierencodage.java:11-26 | running the program a second time changes nothing more |
| ModifierEncodage.OtherSpellingsKept | Java/modifierencodage.java:12 | the match is case- and quote-sensitive: `encoding="UTF-8"` and `encoding='utf-8'` are left as they are |
| ModifierEncodage.Untouched | Java/modifierencodage.java:12-24 | a line that differs from the pattern in one character is written back unchanged |
| ModifierEncodage.NotFollowedBySeparator | Java/modifierencodage.java:22-24 | a line that differs from the pattern, followed by line-break characters, does not contain the pattern |
| AfficherRss.TitleLine | Java/afficherRSS.java:27-32 | an item yields a line exactly when it has a `title` descendant whose first child exists; otherwise the casts or indexing throw |
| AfficherRss.TitlesComplete | Java/afficherRSS.java:19-33 | the loop runs to the end exactly when every item yields a line, and then it prints one title per item, in document order |
| AfficherRss.TitlesStop | Java/afficherRSS.java:22-33 | when item `i` is the first to throw, exactly `i` titles were printed |
| AfficherRss.TitlesNext | Java/afficherRSS.java:22-33 | the loop carried one item further: a throw ends the output; otherwise the title is printed and the rest follows |
| AfficherRss.Console.constructor | Java/afficherRSS.java:14-16 | nothing has been printed |
| AfficherRss.Console.AfficherTitre | Java/afficherRSS.java:9-34 | prints the titles of the document's `item` elements, stopping at the first item that throws |
| LeDevoir.NoeudEnfant | ledevoir.java:110-120 | `noeud_enfant` returns `null` exactly when the list is empty |
| LeDevoir.NoeudEnfantFirstOnly | ledevoir.java:110-120 | the loop returns on its first iteration: only the first node of the list matters |
| LeDevoir.NoeudEnfantElements | ledevoir.java:116 | every node returned is an element with the requested tag |
| LeDevoir.ListLinesShape | ledevoir.java:129-136 | two lines per node: its name, then its text content |
| LeDevoir.Readable | ledevoir.java:64-65 | `rendre_lisible` first prints the root's name |
| LeDevoir.ReadableChannels | ledevoir.java:79-85 | once the `channel` list is known, the output still starts with the root's name |
| LeDevoir.ReadableItems | ledevoir.java:80-85 | once the `item` list is known, the output still starts with the root's name |
| LeDevoir.ReadableLayers | ledevoir.java:74-79 | every `channel` found is an element, and the output is decided by the `channel` list alone |
| LeDevoir.ChannelsLayer | ledevoir.java:79-81 | with no first channel the method prints only the name and throws; otherwise the items found are elements and decide the rest |
| LeDevoir.ItemsLayer | ledevoir.java:80-85 | with no first item the method prints only the name and throws; otherwise it prints the titles, then the descriptions, all elements |
| LeDevoir.ReadableCompletes | ledevoir.java:74-85 | the method completes exactly when there is a `channel` whose first has an `item`; otherwise the `null` list makes it throw |
| LeDevoir.ReadableCases | ledevoir.java:64-85 | the output is the root name, then the titles and then the descriptions of the first item of the first channel |
| LeDevoir.SommeValue | ledevoir.java:209-212 | `somme(a, b)` is `b + 3a`, wrapped to 32 bits |
| LeDevoir.MainPrints | ledevoir.java:175-181 | `main` first prints `b = 0` and then `b = 3` |
| LeDevoir.Console.constructor | ledevoir.java:58-62 | nothing has been printed |
| LeDevoir.Console.AfficheNoeudFor | ledevoir.java:129-136 | prints the name and text content of every node of the list, in order |
| LeDevoir.Console.RendreLisible | ledevoir.java:48-89 | the printed lines and whether the method completes are those of the readable view |
| XQuery10Driver.IsExcludedCases | XQuery/drivers/java/com/saxonica/testdriver/ee/XQuery10TestSuiteDriver.java:672-674 | exactly the test names that start with `dotnet` are excluded |
| XQuery10Driver.ToClarkName | XQuery/drivers/java/com/saxonica/testdriver/ee/XQuery10TestSuiteDriver.java:676-687 | `null` stays `null`; a `local:` name gets the local-functions namespace in Clark notation; any other name is unchanged |
| XQuery10Driver.ToClarkNameIdempotent | XQuery/drivers/java/com/saxonica/testdriver/ee/XQuery10TestSuiteDriver.java:676-687 | converting a converted name changes nothing |
| XQuery10Driver.ToClarkNameKeepsLocalPart | XQuery/drivers/java/com/saxonica/testdriver/ee/XQuery10TestSuiteDriver.java:681-682 | the local part after `local:` is kept |
| XQuery10Driver.NormalizeNewlinesLength | XQuery/drivers/java/com/saxonica/testdriver/ee/XQuery10TestSuiteDriver.java:1333-1335 | each CRLF pair loses one character |
| XQuery10Driver.NormalizeNewlinesNoCr | XQuery/drivers/java/com/saxonica/testdriver/ee/XQuery10TestSuiteDriver.java:1333-1335 | a text without carriage returns is unchanged |
| XQuery10Driver.NormalizeNewlinesOnePass | XQuery/drivers/java/com/saxonica/testdriver/ee/XQuery10TestSuiteDriver.java:1333-1335 | `replace` is one left-to-right pass: `"\r\r\n"` becomes `"\r\n"` |
| XQuery10Driver.Truncate | XQuery/drivers/java/com/saxonica/testdriver/ee/XQuery10TestSuiteDriver.java:1045-1048 | a prefix of the input, of length at most 200 |
| XQuery10Driver.TruncateShort | XQuery/drivers/java/com/saxonica/testdriver/ee/XQuery10TestSuiteDriver.java:1045-1048 | a short text is unchanged, and truncating twice is truncating once |
| XQuery10Driver.KeepClassCharsProps | XQuery/drivers/java/com/saxonica/testdriver/ee/XQuery10TestSuiteDriver.java:1316-1321 | only lowercase ASCII letters and digits are kept, the text never grows, and a text of only those is unchanged |
| XQuery10Driver.LowerOfClassChars | XQuery/drivers/java/com/saxonica/testdriver/ee/XQuery10TestSuiteDriver.java:1314-1321 | lowercasing a text of class characters changes nothing |
| XQuery10Driver.LowercaseIdempotent | XQuery/drivers/java/com/saxonica/testdriver/ee/XQuery10TestSuiteDriver.java:1312-1322 | the result holds only class characters, and applying `lowercase` again changes nothing |
| XQuery10Driver.LowercaseExample | XQuery/drivers/java/com/saxonica/testdriver/ee/XQuery10TestSuiteDriver.java:1312-1322 | `lowercase("A-1")` is `"a1"` |
| XQuery10Driver.Lowercase | XQuery/drivers/java/com/saxonica/testdriver/ee/XQuery10TestSuiteDriver.java:1312-1322 | the loop appends exactly the class characters of the lowercased name |
| XQuery10Driver.MakeClassNameShape | XQuery/drivers/java/com/saxonica/testdriver/ee/XQuery10TestSuiteDriver.java:1324-1331 | the group name, a dot, the first character of the main name in upper case, then the rest in lower case |
| XQuery10Driver.MakeClassNameStable | XQuery/drivers/java/com/saxonica/testdriver/ee/XQuery10TestSuiteDriver.java:1324-1331 | a main name that is already capitalised gives the same class name |
| XQuery10Driver.StripDeclaration | XQuery/drivers/java/com/saxonica/testdriver/ee/XQuery10TestSuiteDriver.java:990-999 | a fragment without a declaration is unchanged, and the result is always a suffix of the fragment |
| XQuery10Driver.FirstClose | XQuery/drivers/java/com/saxonica/testdriver/ee/XQuery10TestSuiteDriver.java:991 | `indexOf("?>")` finds the end of the declaration |
| XQuery10Driver.DeclarationStripped | XQuery/drivers/java/com/saxonica/testdriver/ee/XQuery10TestSuiteDriver.java:986-1003 | a fragment with a closed declaration is wrapped without it |
| XQuery10Driver.UnclosedDeclaration | XQuery/drivers/java/com/saxonica/testdriver/ee/XQuery10TestSuiteDriver.java:990-993 | with no `?>`, `indexOf` is -1 and only the first character is dropped |
| XQuery10Driver.PlainFragment | XQuery/drivers/java/com/saxonica/testdriver/ee/XQuery10TestSuiteDriver.java:986-1003 | a fragment without a declaration is trimmed and wrapped; `null` wraps the empty fragment |
| XQuery10Driver.AnyMatchWitness | XQuery/drivers/java/com/saxonica/testdriver/ee/XQuery10TestSuiteDriver.java:709-724 | the loop passes exactly when some expected error applies to the spec version and has the actual code or `*` |
| XQuery10Driver.ListedEmpty | XQuery/drivers/java/com/saxonica/testdriver/ee/XQuery10TestSuiteDriver.java:725-728 | nothing is listed exactly when no expected error applies to the spec version |
| XQuery10Driver.ClassifyCases | XQuery/drivers/java/com/saxonica/testdriver/ee/XQuery10TestSuiteDriver.java:704-741 | the verdict is a plain pass exactly when an applicable error matches, and a failure exactly when none applies |
| XQuery10Driver.ApplicableProps | XQuery/drivers/java/com/saxonica/testdriver/ee/XQuery10TestSuiteDriver.java:714-717 | skipping errors for other spec versions changes neither the listed codes nor whether one matches |
| XQuery10Driver.ClassifyIgnoresOtherVersions | XQuery/drivers/java/com/saxonica/testdriver/ee/XQuery10TestSuiteDriver.java:714-717 | the verdict depends only on the errors that apply to the spec version |
| XQuery10Driver.WildcardPasses | XQuery/drivers/java/com/saxonica/testdriver/ee/XQuery10TestSuiteDriver.java:718-723 | an applicable `*` makes the test pass |
| XQuery10Driver.Results.constructor | XQuery/drivers/java/com/saxonica/testdriver/ee/XQuery10TestSuiteDriver.java:1083 | no result has been written |
| XQuery10Driver.Results.ProcessError | XQuery/drivers/java/com/saxonica/testdriver/ee/XQuery10TestSuiteDriver.java:704-741 | writes the verdict's test case, plus the query-file instruction unless it is a plain pass |
| UpdateDriver.IsExcludedCases | XQuery/drivers/java/com/saxonica/testdriver/ee/UpdateTestSuiteDriver.java:704-709 | names starting with `stf` and `fn-put-003` to `fn-put-006` are excluded; neighbouring names are not |
| UpdateDriver.IndexOfCode | XQuery/drivers/java/com/saxonica/testdriver/ee/UpdateTestSuiteDriver.java:1167 | `String.indexOf(int)`: the first position holding that character code, or -1 when there is none |
| UpdateDriver.NormalizeAsWritten | XQuery/drivers/java/com/saxonica/testdriver/ee/UpdateTestSuiteDriver.java:1165-1172 | the method as written never lengthens the text |
| UpdateDriver.AsWrittenNoCr | XQuery/drivers/java/com/saxonica/testdriver/ee/UpdateTestSuiteDriver.java:1165-1172 | a text without carriage returns is unchanged |
| UpdateDriver.AsWrittenShortUnchanged | XQuery/drivers/java/com/saxonica/testdriver/ee/UpdateTestSuiteDriver.java:1165-1172 | any text of at most 10 characters is unchanged, CRLF pairs included |
| UpdateDriver.AsWrittenKeepsCrlf | XQuery/drivers/java/com/saxonica/testdriver/ee/UpdateTestSuiteDriver.java:1165-1172 | as written, `"a\r\nb"` keeps its CRLF, while the XQuery 1.0 driver's version turns it into `"a\nb"` |
| UpdateDriver.AsWrittenDeletesLoneCr | XQuery/drivers/java/com/saxonica/testdriver/ee/UpdateTestSuiteDriver.java:1165-1172 | as written, a carriage return at position 0 followed by a string without carriage returns is deleted whenever the character with code 1 first sits at position 10, whether or not a line feed follows it |
| UpdateDriver.AsWrittenDeletesLoneCrExample | XQuery/drivers/java/com/saxonica/testdriver/ee/UpdateTestSuiteDriver.java:1165-1172 | the concrete case: `"\r123456789\u0001"` comes back as `"123456789\u0001"` |
| UpdateDriver.NormalizeNewlines | XQuery/drivers/java/com/saxonica/testdriver/ee/UpdateTestSuiteDriver.java:1165-1172 | the intended method, with `charAt(cr + 1)` in the test, never lengthens the text |
| UpdateDriver.FirstCr | XQuery/drivers/java/com/saxonica/testdriver/ee/UpdateTestSuiteDriver.java:1166 | a prefix without carriage returns moves the first one along by its length |
| UpdateDriver.SplitAfterPrefix | XQuery/drivers/java/com/saxonica/testdriver/ee/UpdateTestSuiteDriver.java:1168 | cutting after a prefix and a position gives the prefix's parts back |
| UpdateDriver.NormalizePrefix | XQuery/drivers/java/com/saxonica/testdriver/ee/UpdateTestSuiteDriver.java:1165-1172 | the intended method leaves a prefix without carriage returns alone |
| UpdateDriver.NormalizeAtCr | XQuery/drivers/java/com/saxonica/testdriver/ee/UpdateTestSuiteDriver.java:1165-1172 | in the intended method, a first carriage return that starts a CRLF pair is dropped and the rest after it is normalised |
| UpdateDriver.CrlfHead | XQuery/drivers/java/com/saxonica/testdriver/ee/UpdateTestSuiteDriver.java:1165-1172 | a leading CRLF becomes a line feed |
| UpdateDriver.ReplacePrefix | XQuery/drivers/java/com/saxonica/testdriver/ee/XQuery10TestSuiteDriver.java:1333-1335 | `replace("\r\n", "\n")` leaves a prefix without carriage returns alone |
| UpdateDriver.NormalizeNewlinesReplacesPairs | XQuery/drivers/java/com/saxonica/testdriver/ee/UpdateTestSuiteDriver.java:1165-1172 | when every carriage return starts a CRLF pair, the intended method agrees with the XQuery 1.0 driver's `replace` |
| UpdateDriver.PairsSplit | XQuery/drivers/java/com/saxonica/testdriver/ee/UpdateTestSuiteDriver.java:1166-1168 | in such a text, the first carriage return starts a pair and the rest keeps the property |
| UpdateDriver.PairStep | XQuery/drivers/java/com/saxonica/testdriver/ee/UpdateTestSuiteDriver.java:1165-1172 | both versions turn the first pair into a line feed and go on with the rest |
| UpdateDriver.OutputSuffix | XQuery/drivers/java/com/saxonica/testdriver/ee/UpdateTestSuiteDriver.java:478-488 | the suffix starts at the last dot; a name without a dot makes `substring(-1)` throw; with no output file the suffix is `.out` |
| UpdateDriver.OutputSuffixExtension | XQuery/drivers/java/com/saxonica/testdriver/ee/UpdateTestSuiteDriver.java:482-484 | `stem.ext` gives `.ext` |
| UpdateDriver.LocalOutputFileSuffix | XQuery/drivers/java/com/saxonica/testdriver/ee/UpdateTestSuiteDriver.java:478-489 | the local output file, the test name followed by the suffix, ends with that same suffix |
| UpdateDriver.Listed | XQuery/drivers/java/com/saxonica/testdriver/ee/UpdateTestSuiteDriver.java:766-767 | the listed codes are empty exactly when no error is expected |
| UpdateDriver.ErrorStepCounts | XQuery/drivers/java/com/saxonica/testdriver/ee/UpdateTestSuiteDriver.java:749-787 | keeps the tallies consistent; an expected code counts a pass only on the last state; a wrong code counts a pass and a wrong error code; no expected error is a failure added to the failing list |
| UpdateDriver.NoWildcard | XQuery/drivers/java/com/saxonica/testdriver/ee/UpdateTestSuiteDriver.java:759 | unlike the XQuery 1.0 driver, `*` is not a wildcard: it counts as a wrong error code |
| UpdateDriver.ReportStepCounts | XQuery/drivers/java/com/saxonica/testdriver/ee/UpdateTestSuiteDriver.java:560-586 | keeps the tallies consistent; a failure is counted and listed exactly when nothing matched and an error or a result was expected; nothing changes exactly when nothing at all was expected |
| UpdateDriver.RunStatesConsistent | XQuery/drivers/java/com/saxonica/testdriver/ee/UpdateTestSuiteDriver.java:396-593 | running the states of a test case keeps the tallies consistent, whether it ends normally or an output file name without a dot aborts it |
| UpdateDriver.RunStatesAborts | XQuery/drivers/java/com/saxonica/testdriver/ee/UpdateTestSuiteDriver.java:396-489 | a test case aborts the run exactly when one of its states compiled and its first output file name has no dot |
| UpdateDriver.QuietEarlierStates | XQuery/drivers/java/com/saxonica/testdriver/ee/UpdateTestSuiteDriver.java:396-593 | when the earlier states raise only expected errors or run with a usable output suffix, only the last state changes the tallies |
| UpdateDriver.AfterCaseAborts | XQuery/drivers/java/com/saxonica/testdriver/ee/UpdateTestSuiteDriver.java:349-489 | a test case aborts the run exactly when it is neither listed nor excluded and one of its states aborts |
| UpdateDriver.RunCasesConsistent | XQuery/drivers/java/com/saxonica/testdriver/ee/UpdateTestSuiteDriver.java:330-609 | the loop over the test cases keeps the tallies consistent, aborted or not |
| UpdateDriver.RunCasesComplete | XQuery/drivers/java/com/saxonica/testdriver/ee/UpdateTestSuiteDriver.java:330-600 | with no aborting test case the loop runs to the end and announces every test case, run or skipped, in order |
| UpdateDriver.RunCasesStops | XQuery/drivers/java/com/saxonica/testdriver/ee/UpdateTestSuiteDriver.java:330-609 | the first aborting test case ends the loop: it is the last one announced, and every later test case is skipped |
| UpdateDriver.FailingLinesShape | XQuery/drivers/java/com/saxonica/testdriver/ee/UpdateTestSuiteDriver.java:604-606 | one indented line per failing test |
| UpdateDriver.SummaryListsAll | XQuery/drivers/java/com/saxonica/testdriver/ee/UpdateTestSuiteDriver.java:601-606 | with consistent tallies the summary is two header lines and then every failing test |
| UpdateDriver.Driver.constructor | XQuery/drivers/java/com/saxonica/testdriver/ee/UpdateTestSuiteDriver.java:92-95 | every counter starts at zero, with no failing test and no output |
| UpdateDriver.Driver.ProcessError | XQuery/drivers/java/com/saxonica/testdriver/ee/UpdateTestSuiteDriver.java:749-787 | the tallies move as one error step says, and the monitor is untouched |
| UpdateDriver.Driver.ReportLastState | XQuery/drivers/java/com/saxonica/testdriver/ee/UpdateTestSuiteDriver.java:560-586 | the tallies move as one report step says |
| UpdateDriver.Driver.RunTestCase | XQuery/drivers/java/com/saxonica/testdriver/ee/UpdateTestSuiteDriver.java:388-593 | the tallies move as running the states says, and the method reports whether an output file name without a dot aborted the run |
| UpdateDriver.Driver.Println | XQuery/drivers/java/com/saxonica/testdriver/ee/UpdateTestSuiteDriver.java:125-130 | one line is added to the monitor and no tally changes |
| UpdateDriver.Driver.VisitCase | XQuery/drivers/java/com/saxonica/testdriver/ee/UpdateTestSuiteDriver.java:337-396 | one test case is announced on the monitor; a listed or excluded one changes no tally, and a run one moves the tallies as its states say and reports whether it aborted |
| UpdateDriver.Driver.RunCasesLoop | XQuery/drivers/java/com/saxonica/testdriver/ee/UpdateTestSuiteDriver.java:330-593 | the loop over the test cases ends with the tallies, monitor lines and abort flag of `RunCases` |
| UpdateDriver.Driver.Go | XQuery/drivers/java/com/saxonica/testdriver/ee/UpdateTestSuiteDriver.java:330-609 | the tallies are those of the loop over the test cases; the monitor gets one announcement per test case reached, then the summary only when no exception ended the run |
| UpdateDriver.Driver.PrintSummary | XQuery/drivers/java/com/saxonica/testdriver/ee/UpdateTestSuiteDriver.java:601-606 | prints the summary lines and changes no tally |
| SchemaDriver.NormalizeVersion | XQuery/drivers/java/com/saxonica/testdriver/ee/SchemaTestSuiteDriver.java:288-294 | a missing version becomes the empty string, `full-xpath-in-CTA` becomes `1.1`, and any other version is kept |
| SchemaDriver.VersionFilters | XQuery/drivers/java/com/saxonica/testdriver/ee/SchemaTestSuiteDriver.java:288-313 | an unversioned set, group or test runs; `full-xpath-in-CTA` admits a set or group only under 1.1, and never admits a single test |
| SchemaDriver.NoDigitNoContains | XQuery/drivers/java/com/saxonica/testdriver/ee/SchemaTestSuiteDriver.java:295 | a version string without the first character of the version under test does not contain it |
| SchemaDriver.SetOrGroupAsTest | XQuery/drivers/java/com/saxonica/testdriver/ee/SchemaTestSuiteDriver.java:295-311 | for an ordinary non-empty version, sets, groups and tests are filtered alike |
| SchemaDriver.IsOk | XQuery/drivers/java/com/saxonica/testdriver/ee/SchemaTestSuiteDriver.java:405-410 | an indeterminate, implementation-defined or implementation-dependent outcome is always same |
| SchemaDriver.IsOkCases | XQuery/drivers/java/com/saxonica/testdriver/ee/SchemaTestSuiteDriver.java:403-410 | an expected `valid` agrees exactly with success; any other definite outcome agrees exactly with failure; no expected element counts as indeterminate |
| SchemaDriver.ExceptionKeyInjective | XQuery/drivers/java/com/saxonica/testdriver/ee/SchemaTestSuiteDriver.java:259 | when set names hold no `#`, distinct set and group pairs give distinct keys |
| SchemaDriver.ExceptionLookup | XQuery/drivers/java/com/saxonica/testdriver/ee/SchemaTestSuiteDriver.java:254-260 | a pair is in the exception map exactly when some exception names it, and the last such exception's reason wins |
| SchemaDriver.Complete | XQuery/drivers/java/com/saxonica/testdriver/ee/SchemaTestSuiteDriver.java:243-248 | a completed file name always holds a dot and a slash |
| SchemaDriver.CompleteIdempotent | XQuery/drivers/java/com/saxonica/testdriver/ee/SchemaTestSuiteDriver.java:243-248 | completing a completed name changes nothing |
| SchemaDriver.CompleteKeepsFullNames | XQuery/drivers/java/com/saxonica/testdriver/ee/SchemaTestSuiteDriver.java:243-248 | a name with a dot and a slash is used as given |
| SchemaDriver.CompletePlain | XQuery/drivers/java/com/saxonica/testdriver/ee/SchemaTestSuiteDriver.java:243-248 | a plain name is placed in the local directory with the `.xml` extension |
| SchemaDriver.NoLocalDirectory | XQuery/drivers/java/com/saxonica/testdriver/ee/SchemaTestSuiteDriver.java:215-216 | without `-local`, the directory is the text `null` |
| SchemaDriver.DefaultExceptions10 | XQuery/drivers/java/com/saxonica/testdriver/ee/SchemaTestSuiteDriver.java:237-248 | under 1.0 the default exceptions file is `exceptions.xml` in the local directory |
| SchemaDriver.DefaultExceptions11TV | XQuery/drivers/java/com/saxonica/testdriver/ee/SchemaTestSuiteDriver.java:237-248 | under 1.1 with `-tv` it is `exceptions11tv.xml` |
| SchemaDriver.DefaultExceptions11 | XQuery/drivers/java/com/saxonica/testdriver/ee/SchemaTestSuiteDriver.java:237-248 | under 1.1 without `-tv` it is `exceptions11.xml` |
| SchemaDriver.DefaultReportFile | XQuery/drivers/java/com/saxonica/testdriver/ee/SchemaTestSuiteDriver.java:746-756 | the default report file is `SaxonResults<product>-<version>.xml` in the local directory |
| SchemaDriver.ReportedSnoc | XQuery/drivers/java/com/saxonica/testdriver/ee/SchemaTestSuiteDriver.java:412-429 | writing one more result adds one to the reported count exactly when it is a reported result |
| SchemaDriver.ReportBalanced | XQuery/drivers/java/com/saxonica/testdriver/ee/SchemaTestSuiteDriver.java:412-429 | one reported result counts exactly one of success, failure and queried, and queried exactly when the test is queried |
| SchemaDriver.SchemaStepBalanced | XQuery/drivers/java/com/saxonica/testdriver/ee/SchemaTestSuiteDriver.java:365-433 | one schema test counts one test, keeps the tallies balanced, and marks the schema failed exactly when a test that ran failed |
| SchemaDriver.InstanceStepBalanced | XQuery/drivers/java/com/saxonica/testdriver/ee/SchemaTestSuiteDriver.java:437-563 | one instance test counts one test and keeps the tallies balanced; under a queried schema it changes neither successes nor failures |
| SchemaDriver.RunSchemaTestsBalanced | XQuery/drivers/java/com/saxonica/testdriver/ee/SchemaTestSuiteDriver.java:365-433 | the schema loop counts every schema test, and the schema has failed exactly when one that ran failed |
| SchemaDriver.RunInstanceTestsBalanced | XQuery/drivers/java/com/saxonica/testdriver/ee/SchemaTestSuiteDriver.java:437-563 | the instance loop counts every instance test; under a queried schema it changes neither successes nor failures |
| SchemaDriver.GroupBalanced | XQuery/drivers/java/com/saxonica/testdriver/ee/SchemaTestSuiteDriver.java:361-564 | a group keeps the tallies balanced; its instance tests are counted only when no schema test that ran failed |
| SchemaDriver.Driver.constructor | XQuery/drivers/java/com/saxonica/testdriver/ee/SchemaTestSuiteDriver.java:90-93 | every counter starts at zero and the result file holds no test result |
| SchemaDriver.Driver.WriteResult | XQuery/drivers/java/com/saxonica/testdriver/ee/SchemaTestSuiteDriver.java:412-429 | writes one test result and moves the counters as one report says |
| SchemaDriver.Driver.RunGroup | XQuery/drivers/java/com/saxonica/testdriver/ee/SchemaTestSuiteDriver.java:318-564 | the counters and results are those of running the group with its exception, if any |
| SchemaDriver.Driver.SchemaTest | XQuery/drivers/java/com/saxonica/testdriver/ee/SchemaTestSuiteDriver.java:365-433 | one pass of the schema-test loop changes the counters, the results and the group flags as one schema step says |
| SchemaDriver.Driver.InstanceTest | XQuery/drivers/java/com/saxonica/testdriver/ee/SchemaTestSuiteDriver.java:437-563 | one pass of the instance-test loop changes the counters, the results and the bug reference as one instance step says |
| XMark.Insert | XQuery/drivers/java/com/saxonica/testdriver/XMarkBenchmark.java:400 | inserting makes the list one longer |
| XMark.InsertPermutes | XQuery/drivers/java/com/saxonica/testdriver/XMarkBenchmark.java:400 | inserting adds exactly one copy of the value and keeps every other |
| XMark.InsertSorted | XQuery/drivers/java/com/saxonica/testdriver/XMarkBenchmark.java:400 | inserting into a sorted list keeps it sorted |
| XMark.Sort | XQuery/drivers/java/com/saxonica/testdriver/XMarkBenchmark.java:400 | `Arrays.sort` keeps the length |
| XMark.SortPermutes | XQuery/drivers/java/com/saxonica/testdriver/XMarkBenchmark.java:400 | `Arrays.sort` returns a permutation of its input |
| XMark.SortSorted | XQuery/drivers/java/com/saxonica/testdriver/XMarkBenchmark.java:400 | `Arrays.sort` returns its input in ascending order |
| XMark.SortSpec | XQuery/drivers/java/com/saxonica/testdriver/XMarkBenchmark.java:400 | `Arrays.sort` returns a sorted permutation of its input |
| XMark.InsertCounts | XQuery/drivers/java/com/saxonica/testdriver/XMarkBenchmark.java:400 | inserting a value changes the counts below and above a bound only by that value |
| XMark.SortCounts | XQuery/drivers/java/com/saxonica/testdriver/XMarkBenchmark.java:400 | sorting changes no count below or above any bound |
| XMark.CountLeAtLeast | XQuery/drivers/java/com/saxonica/testdriver/XMarkBenchmark.java:400-401 | a prefix whose values are all at most `v` is counted below `v` |
| XMark.CountGeAtLeast | XQuery/drivers/java/com/saxonica/testdriver/XMarkBenchmark.java:400-401 | a suffix whose values are all at least `v` is counted above `v` |
| XMark.SortedRank | XQuery/drivers/java/com/saxonica/testdriver/XMarkBenchmark.java:400-401 | in a sorted list, the value at index `k` has at least `k + 1` values at most it and `n - k` at least it |
| XMark.MedianAsWritten | XQuery/drivers/java/com/saxonica/testdriver/XMarkBenchmark.java:398-402 | `median` as written throws for fewer than two measures, since index `n/2 - 1` is negative, and returns a value otherwise |
| XMark.MedianAsWrittenRank | XQuery/drivers/java/com/saxonica/testdriver/XMarkBenchmark.java:398-402 | as written, `median` returns the value at sorted index `n/2 - 1`: at least `n/2` measures are at most it and at least `n - n/2 + 1` are at least it, so for an odd count it lies below the middle |
| XMark.MedianAsWrittenOfThree | XQuery/drivers/java/com/saxonica/testdriver/XMarkBenchmark.java:398-402 | for the measures 20, 10, 30, `median` returns 10, the smallest, while the median is 20 |
| XMark.SortOfThree | XQuery/drivers/java/com/saxonica/testdriver/XMarkBenchmark.java:398-402 | `Arrays.sort` puts 20, 10, 30 in the order that starts with 10, then 20 |
| XMark.MedianAsWrittenAt | XQuery/drivers/java/com/saxonica/testdriver/XMarkBenchmark.java:398-402 | `median` as written returns element `n/2 - 1` of the sorted measures, for two or more measures |
| XMark.MedianAt | XQuery/drivers/java/com/saxonica/testdriver/XMarkBenchmark.java:398-402 | the median is element `(n - 1)/2` of the sorted measures, for one or more measures |
| XMark.Median | XQuery/drivers/java/com/saxonica/testdriver/XMarkBenchmark.java:398-402 | the corrected median, at index `(n - 1)/2` of the sorted measures, is defined exactly for non-empty lists |
| XMark.MedianIsMeasure | XQuery/drivers/java/com/saxonica/testdriver/XMarkBenchmark.java:398-402 | both `median` as written and the corrected median return one of the measures |
| XMark.MedianHalves | XQuery/drivers/java/com/saxonica/testdriver/XMarkBenchmark.java:398-402 | at least half the measures are at most the corrected median, and at least half are at least it |
| XMark.MedianEvenAgrees | XQuery/drivers/java/com/saxonica/testdriver/XMarkBenchmark.java:398-402 | for an even number of measures, the method as written and the corrected median both return the lower middle value |
| XMark.TimedStep | XQuery/drivers/java/com/saxonica/testdriver/XMarkBenchmark.java:348-370 | one iteration of the query timing loop: record the time, then stop when the total exceeds the limit from the third run onwards, or go on |
| XMark.LeastIsMinimum | XQuery/drivers/java/com/saxonica/testdriver/XMarkBenchmark.java:343-361 | the running minimum is at most its seed and every measure, and equals one of them |
| XMark.GreatestIsMaximum | XQuery/drivers/java/com/saxonica/testdriver/XMarkBenchmark.java:344-362 | the running maximum is at least its seed and every measure, and equals one of them |
| XMark.RecordSummarises | XQuery/drivers/java/com/saxonica/testdriver/XMarkBenchmark.java:357-364 | recording a time keeps runs, total, minimum, maximum and measures in step with the times seen |
| XMark.TimedFromShape | XQuery/drivers/java/com/saxonica/testdriver/XMarkBenchmark.java:348-370 | the loop from any iteration ends within the run limit, still summarising, and stops early only when the time limit was passed from the third run on |
| XMark.TimedShape | XQuery/drivers/java/com/saxonica/testdriver/XMarkBenchmark.java:341-370 | the timing loop's runs, total, minimum, maximum and measures summarise the first `runs` times; the loop stops early only once three runs have passed the time limit, and not before |
| XMark.QueryMedianDefined | XQuery/drivers/java/com/saxonica/testdriver/XMarkBenchmark.java:348-372 | with 1000 runs allowed, at least three runs are made, so `median` does not throw |
| XMark.TimeQuery | XQuery/drivers/java/com/saxonica/testdriver/XMarkBenchmark.java:341-370 | the query timing loop computes exactly the timing summary above, with 1000 runs and 30 seconds |
| XMark.FloorBetween | XQuery/drivers/java/com/saxonica/testdriver/XMarkBenchmark.java:469 | division of a non-negative total keeps the bounds |
| XMark.DivBetween | XQuery/drivers/java/com/saxonica/testdriver/XMarkBenchmark.java:469 | truncating division of a total between `n * lo` and `n * hi` by `n` lies between `lo` and `hi` |
| XMark.MulLe | XQuery/drivers/java/com/saxonica/testdriver/XMarkBenchmark.java:469 | multiplying by a non-negative number keeps an inequality |
| XMark.SumBetween | XQuery/drivers/java/com/saxonica/testdriver/XMarkBenchmark.java:448-467 | a sum of values between `lo` and `hi` lies between `n * lo` and `n * hi` |
| XMark.TimeTransform | XQuery/drivers/java/com/saxonica/testdriver/XMarkBenchmark.java:448-472 | the XSLT timing loop computes the timing summary with 10 runs and 1000 ms, makes at least one run, and prints the truncated average |
| XMark.TransformAverage | XQuery/drivers/java/com/saxonica/testdriver/XMarkBenchmark.java:448-472 | the printed average lies between the minimum and the maximum |
| XMark.SelectedModelsCases | XQuery/drivers/java/com/saxonica/testdriver/XMarkBenchmark.java:270-273 | with no `-tree` every model runs; with one, exactly that model runs, once |
| XMark.ModelsListed | XQuery/drivers/java/com/saxonica/testdriver/XMarkBenchmark.java:83-85 | every model is in the list, and the list has no duplicates |
| XMark.ModelsDistinct | XQuery/drivers/java/com/saxonica/testdriver/XMarkBenchmark.java:80-85 | the default runs all nine models, and `-tree` selects exactly one |
| XMark.QueriesFromCases | XQuery/drivers/java/com/saxonica/testdriver/XMarkBenchmark.java:327-330 | from query `q`, all queries `q` to 20 run when no `-q` was given; otherwise only the chosen one, when it is in range |
| XMark.QueriesRun | XQuery/drivers/java/com/saxonica/testdriver/XMarkBenchmark.java:327-330 | queries 1 to 20 run in order by default, and `-qN` runs only query N when it lies from 1 to 20, and none otherwise |
| XMark.ModelNamed | XQuery/drivers/java/com/saxonica/testdriver/XMarkBenchmark.java:208-229 | only `tinytree` in any case names the tiny tree |
| XMark.ByteCode | XQuery/drivers/java/com/saxonica/testdriver/XMarkBenchmark.java:188-194 | the `-runcomp` stage changes only the byte-code setting, and an argument without a leading `-` passes it unchanged |
| XMark.QueryNumber | XQuery/drivers/java/com/saxonica/testdriver/XMarkBenchmark.java:201-203 | the `-q` stage changes only the query number, and an argument without a leading `-` passes it unchanged |
| XMark.Tree | XQuery/drivers/java/com/saxonica/testdriver/XMarkBenchmark.java:207-231 | the `-tree` stage changes only the tree model, and an argument without a leading `-` passes it unchanged |
| XMark.OtherName | XQuery/drivers/java/com/saxonica/testdriver/XMarkBenchmark.java:169-231 | an argument that differs from an option name at some position neither equals it nor starts with it |
| XMark.OtherOptions | XQuery/drivers/java/com/saxonica/testdriver/XMarkBenchmark.java:169-231 | the second character of an argument rules out every option that starts differently |
| XMark.ApplyArgsStep | XQuery/drivers/java/com/saxonica/testdriver/XMarkBenchmark.java:168-235 | one iteration of the argument loop: an argument that throws ends the parse; otherwise the rest is parsed |
| XMark.ApplyArgsAppend | XQuery/drivers/java/com/saxonica/testdriver/XMarkBenchmark.java:168-235 | parsing two argument lists in turn is parsing their concatenation |
| XMark.IgnoredArgument | XQuery/drivers/java/com/saxonica/testdriver/XMarkBenchmark.java:168-235 | an argument that does not start with `-` changes nothing |
| XMark.FirstSwitches | XQuery/drivers/java/com/saxonica/testdriver/XMarkBenchmark.java:172-187 | only the five switches can change, a set `-xslt` stays set, and an argument without a leading `-` changes nothing |
| XMark.LaterSwitches | XQuery/drivers/java/com/saxonica/testdriver/XMarkBenchmark.java:195-200 | only `checkResults` and `val` can change, and an argument without a leading `-` changes nothing |
| XMark.SizeFiles | XQuery/drivers/java/com/saxonica/testdriver/XMarkBenchmark.java:204-206 | only the file list can change, and an argument without a leading `-` changes nothing |
| XMark.RunCompOption | XQuery/drivers/java/com/saxonica/testdriver/XMarkBenchmark.java:188-194 | `-runcomp` turns byte code `on`; `-runcomp:x` sets it to `x`; `-runcompx` with no colon throws |
| XMark.ByteCodeOnly | XQuery/drivers/java/com/saxonica/testdriver/XMarkBenchmark.java:168-235 | an argument starting with `-r` meets only the `-runcomp` test: the loop body succeeds exactly when that test does, and only byte code generation can change |
| XMark.SplitRunComp | XQuery/drivers/java/com/saxonica/testdriver/XMarkBenchmark.java:188-194 | `split(":")` of `-runcomp:x`, for a non-empty `x` without a colon, gives `-runcomp` and `x` |
| XMark.RunCompOn | XQuery/drivers/java/com/saxonica/testdriver/XMarkBenchmark.java:188-190 | `-runcomp` alone turns byte code `on` and changes nothing else |
| XMark.RunCompValue | XQuery/drivers/java/com/saxonica/testdriver/XMarkBenchmark.java:188-194 | `-runcomp:x` sets byte code generation to `x` and changes nothing else |
| XMark.RunCompJoined | XQuery/drivers/java/com/saxonica/testdriver/XMarkBenchmark.java:188-194 | `-runcomp` followed by a value without a colon throws |
| XMark.DirOption | XQuery/drivers/java/com/saxonica/testdriver/XMarkBenchmark.java:169-171 | `-dir:d` sets the directory to `d` and nothing else |
| XMark.SizeOption | XQuery/drivers/java/com/saxonica/testdriver/XMarkBenchmark.java:204-206 | `-size:n` replaces the files by `xmarkn.xml` |
| XMark.QueryOption | XQuery/drivers/java/com/saxonica/testdriver/XMarkBenchmark.java:201-203 | `-qd` sets the query number to the parsed number, or throws when `d` is not an `int` |
| XMark.TreeOption | XQuery/drivers/java/com/saxonica/testdriver/XMarkBenchmark.java:207-231 | a bare `-tree` throws on `substring(6)`; otherwise the model is the one named after the sixth character, or the parse throws |
| XMark.ModelNamedExactly | XQuery/drivers/java/com/saxonica/testdriver/XMarkBenchmark.java:207-229 | each of the nine names selects its model, and a name selects a model exactly when it equals that model's name ignoring case |
| XMark.ModelNamedOfLower | XQuery/drivers/java/com/saxonica/testdriver/XMarkBenchmark.java:207-229 | which model a name selects depends only on its lower-case spelling |
| XMark.ModelNamedIsName | XQuery/drivers/java/com/saxonica/testdriver/XMarkBenchmark.java:207-229 | a name that selects a model is, in lower case, that model's name |
| XMark.ModelNameSelects | XQuery/drivers/java/com/saxonica/testdriver/XMarkBenchmark.java:207-229 | each model's own name selects that model |
| XMark.LowerOfLower | XQuery/drivers/java/com/saxonica/testdriver/XMarkBenchmark.java:209-225 | lowercasing a name without capitals changes nothing |
| XMark.LaunchFor | XQuery/drivers/java/com/saxonica/testdriver/XMarkBenchmark.java:237-245 | `-xslt` selects the transform and nothing else does; an explicit directory is used as given; the default lies under the program path |
| XMark.XsltOption | XQuery/drivers/java/com/saxonica/testdriver/XMarkBenchmark.java:185-187 | `-xslt` turns on the transform and nothing else |
| XMark.XsltKept | XQuery/drivers/java/com/saxonica/testdriver/XMarkBenchmark.java:168-235 | no argument turns `-xslt` off again |
| XMark.XsltSticks | XQuery/drivers/java/com/saxonica/testdriver/XMarkBenchmark.java:168-235 | once on, `-xslt` stays on for the rest of the arguments |
| XMark.XsltChosen | XQuery/drivers/java/com/saxonica/testdriver/XMarkBenchmark.java:168-245 | a successful parse that includes `-xslt` always launches the transform |
| XMark.Benchmark.constructor | XQuery/drivers/java/com/saxonica/testdriver/XMarkBenchmark.java:66-80 | the fields start at their declared defaults, with the test number at -1 |
| XMark.Benchmark.SetProgramPath | XQuery/drivers/java/com/saxonica/testdriver/XMarkBenchmark.java:91-93 | sets the program path and nothing else |
| XMark.Benchmark.SetFirstSwitches | XQuery/drivers/java/com/saxonica/testdriver/XMarkBenchmark.java:172-187 | the flag switches set their fields as the first stage says |
| XMark.Benchmark.SetByteCode | XQuery/drivers/java/com/saxonica/testdriver/XMarkBenchmark.java:188-194 | the byte-code setting moves as the `-runcomp` stage says, with the failure of `split` reported |
| XMark.Benchmark.SetLaterSwitches | XQuery/drivers/java/com/saxonica/testdriver/XMarkBenchmark.java:195-200 | `-check` and `-val` set their fields |
| XMark.Benchmark.SetQuery | XQuery/drivers/java/com/saxonica/testdriver/XMarkBenchmark.java:201-203 | the query number moves as the `-q` stage says, with a parse failure reported |
| XMark.Benchmark.SetSize | XQuery/drivers/java/com/saxonica/testdriver/XMarkBenchmark.java:204-206 | the file list moves as the `-size:` stage says |
| XMark.Benchmark.SetTree | XQuery/drivers/java/com/saxonica/testdriver/XMarkBenchmark.java:207-231 | the tree model moves as the `-tree` stage says, with an unknown model reported |
| XMark.Benchmark.Argument | XQuery/drivers/java/com/saxonica/testdriver/XMarkBenchmark.java:169-234 | one argument updates the fields and the directory exactly as parsing that argument says |
| XMark.Benchmark.Go | XQuery/drivers/java/com/saxonica/testdriver/XMarkBenchmark.java:166-246 | the fields become those parsed from all the arguments, and the launch is the one they select, or none after a throw |

## Left out

- Parsing and serialising XML (`DocumentBuilder`, `Transformer`, the ISO-8859-1 output property): the programs receive a `Dom.Node` tree, and an editing program's result is its new child list. A program that completes writes that list back; a program that throws leaves the file as it was.
- File, console and network I/O: the CSV file in `Inventaire` and the lines read by `modifier_encodage` are given as sequences of strings; printed lines are appended to an `output` field. The Update driver's `monitor`, which is `System.err`, is `UpdateDriver.Driver.monitor`; the other `System.err` messages (UpdateTestSuiteDriver.java:62-66, 378, 382) and stack traces are not modelled.
- `System.lineSeparator()` is a parameter of `ModifierEncodage.ModifierEncodage`, because it depends on the platform.
- `ledevoir.java`: `ouvrir_nav` (opening a browser) and `charger_uri` (fetching a URL and copying it to a file) are I/O; `modifier_encodage` is the same code as `Java/modifierencodage.java` and is modelled once, as `ModifierEncodage.ModifierEncodage`.
- The path queries and exception texts of the tree programs: a Java exception is a `false` or `None` outcome, without its class or message.
- Java 32-bit `int` arithmetic is modelled with `JavaInt.Wrap32` for quantities, amounts and `somme`. The test drivers' counters (`successes`, `countTests`, the element count of `compterelement`) are unbounded, because 2^31 tests or elements is out of reach.
- XMark.TimeQuery: `totalTime` is a Java `long`; its overflow is not modelled, because 2^63 nanoseconds of CPU time is out of reach.
- `Integer.parseInt` accepts only ASCII digits, with an optional leading `-` or `+`; Unicode digits are not modelled.
- Strings, XQuery10Driver.Truncate, UpdateDriver.IndexOfCode and XMark.Tree: a Dafny `string` is a sequence of Unicode characters, while Java's `length`, `charAt`, `substring`, `indexOf` and `lastIndexOf` count UTF-16 code units. The positions and lengths in the model (the 200-character cut of `truncate`, the positions returned by `Strings.IndexOf`, `Strings.IndexOfChar`, `Strings.LastIndexOfChar` and `UpdateDriver.IndexOfCode`, the `substring(6)` of `-tree:`) are exact on text without supplementary characters; on text with one they count that character once where Java counts two, and the surrogate pair Java's `truncate` can split is not modelled.
- Strings.Lower and Strings.Upper map only ASCII letters: Unicode case mapping in `toLowerCase`, `toUpperCase` and `equalsIgnoreCase` is not modelled.
- XQuery10Driver.MakeClassName: an empty main name, on which Java throws in `substring(0, 1)`, is excluded by the precondition.
- XQuery10Driver: compiling and running queries, comparing results, the canonical-XML and Tidy steps, and writing the results stream: the verdict is computed from the actual error code and the expected errors, given as values.
- UpdateDriver: running queries and comparing results are left out; each state's outcome (compile error, dynamic error, results matched, possible match) and its first output file name come in as values. The test-name pattern, the `-onwards` switch and the not-applicable exclusion expression are left out: the test cases given to `Go` are those that pass them. The opening and closing lines of the results file, the log and the stack trace printed by the outer `catch` are not modelled. The test name suffixed with `-<id>` for an error in an earlier state is carried in the written entry, and no lemma is stated about it.
- SchemaDriver: argument parsing, the contributor and regular-expression filters on sets and groups, schema loading, instance validation and the XPath selection of the `expected` element are left out; each test's version, status, success and expected validity come in as values. A missing `validity` attribute on a present `expected` element is not modelled.
- XMark: the clock. The times measured by the CPU timer (`query`) and the wall clock (`transform`) come in as a sequence, long enough for the largest number of runs (`requires |times| >= limit`).
- XMark: the query's printed `avg` is a `double` over the whole CPU time, and `median`, `min` and `max` are printed as scaled decimals; this floating-point output is not modelled.
- XMark.Sort: `Arrays.sort` is modelled by insertion sort on a sequence; only its result, a sorted permutation, matters here.
- XMark: compiling queries and stylesheets, building the documents of each tree model, `System.gc`, the `threadStop` flag, the `options` string in the header and `Instrumentation` reporting are left out. The query loop and the model loop are given as `QueriesFrom` and `SelectedModels`.
- XMark: the `-?` argument only prints a usage line, so it is modelled as changing nothing.
- XMark: the tree models are compared by constructor rather than by `getName()`; the nine names are distinct, so this is the same test.
- XMark.ModelNamed: its own contract is weak; the full property, that each name selects exactly its model ignoring case, is XMark.ModelNamedExactly.

## Findings

| source | as written | input that shows it | evidently intended | confidence | as-written member | corrected member |
|---|---|---|---|---|---|---|
| Bottin.java:30-35 | `efface` removes children by index from the live child list, then increments the index | two adjacent `personne` entries with the same `nom`: the second is never examined and survives | every entry with the name is removed | high, not executed | Bottin.EffaceLiveSkipsNeighbour | Bottin.EffaceAll |
| XQuery/drivers/java/com/saxonica/testdriver/ee/UpdateTestSuiteDriver.java:1166-1168 | the guard is `in.indexOf(cr + 1) == '\n'`, the position of the character with code `cr + 1` | `"a\r\nb"` is returned unchanged, and `"\r123456789\u0001"` loses its lone carriage return | `in.charAt(cr + 1) == '\n'`: CRLF pairs become line feeds, as in the XQuery 1.0 driver; the corrected member keeps a final `\r`, where the literal `charAt(cr + 1)` would throw `StringIndexOutOfBoundsException` | high, not executed | UpdateDriver.AsWrittenKeepsCrlf | UpdateDriver.NormalizeNewlinesReplacesPairs |
| XQuery/drivers/java/com/saxonica/testdriver/XMarkBenchmark.java:398-402 | `median` returns the element at index `n/2 - 1` of the sorted measures | the measures 20, 10, 30 give 10, the smallest, instead of 20 | the element at index `(n - 1)/2`, the (lower) median | medium, not executed | XMark.MedianAsWrittenOfThree | XMark.MedianHalves |

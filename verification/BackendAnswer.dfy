/** The text a backend3 script answers with, and what it stands for. */
module BackendAnswer {
  import opened Characters

  datatype Pair = Pair(key: string, value: string)
  type Dict = seq<Pair>

  /** A pair as it is written: with spaces in front of its value, and any spaces behind it. */
  datatype Written = Written(pair: Pair, gap: string, after: string)

  /** A parenthesised group of pairs, with any spaces inside and behind it, or a pair outside of any group. */
  datatype Item = Group(lead: string, pairs: seq<Written>, after: string) | Lone(written: Written)

  ghost predicate IsKey(k: string) {
    k != "" && forall i | 0 <= i < |k| :: IsWordChar(k[i])
  }

  /** Every quote in a value is escaped by the character before it, and the closing one is not. */
  ghost predicate IsValue(v: string) {
    && (forall i | 0 <= i < |v| && v[i] == '"' :: i > 0 && v[i - 1] == '\\')
    && (v != "" ==> v[|v| - 1] != '\\')
    && (forall i | 0 <= i < |v| :: v[i] != '\0')
  }

  ghost predicate IsSpaces(s: string) {
    forall i | 0 <= i < |s| :: IsSpace(s[i])
  }

  ghost predicate IsWritten(w: Written) {
    IsKey(w.pair.key) && IsValue(w.pair.value) && w.gap != "" && IsSpaces(w.gap) && IsSpaces(w.after)
  }

  ghost predicate AllWritten(pairs: seq<Written>) {
    forall i | 0 <= i < |pairs| :: IsWritten(pairs[i])
  }

  ghost predicate IsItem(item: Item) {
    match item
    case Group(lead, pairs, after) => IsSpaces(lead) && AllWritten(pairs) && IsSpaces(after)
    case Lone(written) => IsWritten(written)
  }

  ghost predicate IsAnswer(lead: string, items: seq<Item>) {
    IsSpaces(lead) && AllItems(items)
  }

  ghost predicate AllItems(items: seq<Item>) {
    forall i | 0 <= i < |items| :: IsItem(items[i])
  }

  function PairText(w: Written): string {
    w.pair.key + (w.gap + (['"'] + (w.pair.value + (['"'] + w.after))))
  }

  function PairsText(pairs: seq<Written>): string {
    if pairs == [] then "" else PairText(pairs[0]) + PairsText(pairs[1..])
  }

  function ItemText(item: Item): string {
    match item
    case Group(lead, pairs, after) => ['('] + (lead + (PairsText(pairs) + ([')'] + after)))
    case Lone(written) => PairText(written)
  }

  function ItemsText(items: seq<Item>): string {
    if items == [] then "" else ItemText(items[0]) + ItemsText(items[1..])
  }

  /** The whole answer: all items inside the outer brackets, with any layout, and the line end behind them. */
  function AnswerText(lead: string, items: seq<Item>): string {
    ['('] + (lead + (ItemsText(items) + ")\n"))
  }

  /** The dictionaries an answer stands for: a group is one, and so is every lone pair. */
  function Meaning(items: seq<Item>): seq<Dict> {
    if items == [] then [] else [DictOf(items[0])] + Meaning(items[1..])
  }

  function DictOf(item: Item): Dict {
    match item
    case Group(_, pairs, _) => PairsOf(pairs)
    case Lone(written) => [written.pair]
  }

  function PairsOf(pairs: seq<Written>): Dict {
    if pairs == [] then [] else [pairs[0].pair] + PairsOf(pairs[1..])
  }
}

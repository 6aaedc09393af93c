/**
 * The rows of the eight tables, the order each list endpoint returns them in,
 * and how a list endpoint turns a stored `payments` column back into a value.
 */
module Records {
  import opened Wrappers
  import opened Decimal
  import opened Json
  import opened Forms
  import opened Tables

  datatype User = User(username: string, email: string, password: string)

  datatype Post = Post(title: Field, content: Field, link: Field, image: Field, category: Field, createdAt: nat)

  datatype Casino = Casino(label1: Field, label2: Field, country: Field, website: Field, logo: Field,
                           payments: Field, ranking: Option<real>)

  datatype Game = Game(title: Field, link: Field, image: Field, createdAt: nat)

  datatype GlobalSlot = GlobalSlot(name: Field, promo: Field, score: Field, stars: Field, link: Field,
                                   image: Field, payments: Field, createdAt: nat)

  datatype PokerSite = PokerSite(name: Field, description: Field, rating: Option<real>, link: Field, logo: Field)

  datatype CasinoCard = CasinoCard(name: Field, safetyIndex: Field, features: Field, bonus: Field,
                                   termsLink: Field, visitLink: Field, reviewLink: Field, image: Field,
                                   rank: Option<real>)

  datatype BestCasino = BestCasino(promo: Field, code: Field, minDeposit: Field, wagering: Field, rating: Field,
                                   link: Field, logo: Field, createdAt: nat)

  /** What a numeric column receives for a submitted field: NULL, a number, or a refusal that fails the statement. */
  datatype Numeric = Stored(cell: Option<real>) | Refused

  function ToNumeric(f: Field): (r: Numeric)
    ensures f.Null? ==> r == Stored(None)
    ensures f.Text? ==> (r.Refused? <==> !DecimalText(f.s))
    ensures f.Text? && r.Stored? ==> r.cell == ParseNumber(f.s)
  {
    match f
    case Null => Stored(None)
    case Text(s) =>
      ParseNumberAccepts(s);
      match ParseNumber(s)
      case Some(x) => Stored(Some(x))
      case None => Refused
  }

  function KeyOf(cell: Option<real>): SortKey {
    match cell
    case None => NullKey
    case Some(x) => NumKey(x)
  }

  function PostOrder(p: Post): SortKey { NumKey(p.createdAt as real) }
  function CasinoOrder(c: Casino): SortKey { KeyOf(c.ranking) }
  function GameOrder(g: Game): SortKey { NumKey(g.createdAt as real) }
  function SlotOrder(s: GlobalSlot): SortKey { NumKey(s.createdAt as real) }
  function PokerOrder(p: PokerSite): SortKey { KeyOf(p.rating) }
  function CardOrder(c: CasinoCard): SortKey { KeyOf(c.rank) }
  function BestOrder(b: BestCasino): SortKey { NumKey(b.createdAt as real) }

  /** The casino list's `JSON.parse(c.payments)`: a NULL column parses as `null`. */
  function CasinoPaymentsView(column: Field): Option<Json> {
    match column
    case Null => Some(JNull)
    case Text(s) => Decode(s)
  }

  /** The global-slot list's `r.payments ? JSON.parse(r.payments) : []`. */
  function SlotPaymentsView(column: Field): Option<Json> {
    if Truthy(column) then Decode(column.s) else Some(JArr([]))
  }

  /** A listed row with its `payments` column replaced by the parsed value. */
  datatype Parsed<R> = Parsed(id: nat, value: R, payments: Json)

  /** The listed rows without their parsed payments. */
  function Unparsed<R>(xs: seq<Parsed<R>>): (r: seq<Row<R>>)
    ensures |r| == |xs| && forall i :: 0 <= i < |xs| ==> r[i] == Row(xs[i].id, xs[i].value)
  {
    seq(|xs|, i requires 0 <= i < |xs| => Row(xs[i].id, xs[i].value))
  }

  /**
   * The `rows.map(...)` of a list endpoint; `None` when some row's column does
   * not parse, which makes the endpoint answer 500.
   */
  function WithPayments<R>(rows: seq<Row<R>>, column: R -> Field, parse: Field -> Option<Json>): (r: Option<seq<Parsed<R>>>)
    ensures r.Some? <==> forall i :: 0 <= i < |rows| ==> parse(column(rows[i].value)).Some?
    ensures r.Some? ==> |r.value| == |rows| && forall i :: 0 <= i < |rows| ==>
      r.value[i] == Parsed(rows[i].id, rows[i].value, parse(column(rows[i].value)).value)
    ensures r.Some? ==> Unparsed(r.value) == rows
  {
    if rows == [] then Some([])
    else
      match (parse(column(rows[0].value)), WithPayments(rows[1..], column, parse))
      case (Some(j), Some(tail)) =>
        assert forall i :: 1 <= i < |rows| ==> rows[i] == rows[1..][i - 1];
        Some([Parsed(rows[0].id, rows[0].value, j)] + tail)
      case _ =>
        assert forall i :: 0 <= i < |rows[1..]| ==> rows[1..][i] == rows[i + 1];
        None
  }

  /** A casino's stored payments are listed back as the list it was saved with. */
  lemma CasinoPaymentsListed(v: FormValue)
    ensures CasinoPaymentsView(Text(Encode(JArr(CasinoPayments(v))))) == Some(JArr(CasinoPayments(v)))
  {
    DecodeEncode(JArr(CasinoPayments(v)));
  }

  /** Saving a casino without any `payments[]` value lists it with `[null]`, not `[]`. */
  lemma CasinoMissingPaymentsListed()
    ensures CasinoPaymentsView(Text(Encode(JArr(CasinoPayments(Missing))))) == Some(JArr([JNull]))
  {
    CasinoPaymentsListed(Missing);
  }

  /** The payments a global slot is created with are listed back as that list. */
  lemma SlotPaymentsListedAfterCreate(xs: seq<string>)
    ensures SlotPaymentsView(Text(Encode(JArr(Strings(xs))))) == Some(JArr(Strings(xs)))
  {
    DecodeEncode(JArr(Strings(xs)));
  }

  /**
   * The global-slot update stringifies an already serialised list, so the list
   * endpoint then returns that serialisation as one string, not a list.
   */
  lemma SlotPaymentsListedAfterUpdate(xs: seq<string>)
    ensures SlotPaymentsView(Text(Encode(JStr(Encode(JArr(Strings(xs))))))) == Some(JStr(Encode(JArr(Strings(xs)))))
  {
    DecodeEncode(JStr(Encode(JArr(Strings(xs)))));
  }
}

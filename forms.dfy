/**
 * What a request carries into a handler: text form fields, the `payments`
 * checkbox values, and the optional uploaded file, with the naming rules the
 * upload middleware applies to that file.
 */
module Forms {
  import opened Decimal
  import opened Json

  /** A text form field or a nullable text column: `undefined`/SQL NULL, or a string. */
  datatype Field = Null | Text(s: string)

  /** JavaScript truthiness of a field value: present and not the empty string. */
  predicate Truthy(f: Field) {
    f.Text? && f.s != ""
  }

  /** The text fields of a request body, by name; an absent name reads as `undefined`. */
  type Body = map<string, string>

  function FieldOf(body: Body, name: string): (f: Field)
    ensures f.Text? <==> name in body
  {
    if name in body then Text(body[name]) else Null
  }

  /** What a template literal prints for a column value: SQL NULL prints as "null". */
  function JsText(f: Field): string {
    match f
    case Null => "null"
    case Text(s) => s
  }

  /** A checkbox group such as `payments[]`: not sent, sent once (a string), or sent several times (an array). */
  datatype FormValue = Missing | Scalar(s: string) | Many(items: seq<string>)

  /** JavaScript truthiness: an array is always truthy, a string when non-empty. */
  predicate FormTruthy(v: FormValue) {
    v.Many? || (v.Scalar? && v.s != "")
  }

  /**
   * The casino handlers' `Array.isArray(v) ? v : [v]`: an array is kept, and
   * anything else, a missing value included, is wrapped into a one-element
   * list (`undefined` is serialised as `null`).
   */
  function CasinoPayments(v: FormValue): (r: seq<Json>)
    ensures v.Many? ==> r == Strings(v.items)
    ensures !v.Many? ==> |r| == 1
    ensures v.Scalar? ==> r[0] == JStr(v.s)
    ensures v.Missing? ==> r[0] == JNull
  {
    match v
    case Many(items) => Strings(items)
    case Scalar(s) => [JStr(s)]
    case Missing => [JNull]
  }

  /**
   * The global-slot handlers' `payments || payments[] || []`, then wrapping a
   * non-array into a one-element list.
   */
  function SlotPayments(payments: FormValue, bracketed: FormValue): (r: seq<string>)
    ensures payments.Many? ==> r == payments.items
    ensures payments.Scalar? && payments.s != "" ==> r == [payments.s]
    ensures !FormTruthy(payments) && bracketed.Many? ==> r == bracketed.items
    ensures !FormTruthy(payments) && bracketed.Scalar? && bracketed.s != "" ==> r == [bracketed.s]
    ensures !FormTruthy(payments) && !FormTruthy(bracketed) ==> r == []
  {
    var raw := if FormTruthy(payments) then payments else if FormTruthy(bracketed) then bracketed else Many([]);
    if raw.Many? then raw.items else [raw.s]
  }

  /**
   * The two normalisations agree on every truthy value. They part on a
   * missing value and on the empty string, which the casino handlers keep
   * and the global-slot handlers' `||` skips.
   */
  lemma CasinoAndSlotPayments(v: FormValue)
    ensures FormTruthy(v) ==> CasinoPayments(v) == Strings(SlotPayments(Missing, v))
    ensures v.Missing? ==> CasinoPayments(v) == [JNull] && SlotPayments(Missing, v) == []
    ensures v == Scalar("") ==> CasinoPayments(v) == [JStr("")] && SlotPayments(Missing, v) == []
  {
    if v.Scalar? && v.s != "" {
      assert Strings([v.s]) == [JStr(v.s)];
    }
  }

  /** A file received by the upload middleware, with the millisecond clock reading at which it was stored. */
  datatype Upload = Upload(originalName: string, receivedAt: nat)

  /** `Date.now() + '-' + file.originalname`. */
  function UploadName(u: Upload): string {
    NatToDecimal(u.receivedAt) + "-" + u.originalName
  }

  /** The path a record stores and clients fetch: `/uploads/<name>`. */
  function PublicPath(u: Upload): string {
    "/uploads/" + UploadName(u)
  }

  /** Where the middleware writes the file, relative to the server's working directory. */
  function DiskPath(u: Upload): string {
    "uploads/" + UploadName(u)
  }

  /** The file a relative path names: a leading "./" denotes the working directory itself. */
  function Resolve(p: string): string {
    if |p| >= 2 && p[..2] == "./" then p[2..] else p
  }

  /** Two uploads get the same name only when both the clock reading and the original name agree. */
  lemma UploadNameInjective(u: Upload, v: Upload)
    ensures UploadName(u) == UploadName(v) ==> u == v
  {
    var du, dv := NatToDecimal(u.receivedAt), NatToDecimal(v.receivedAt);
    if UploadName(u) == UploadName(v) {
      var n := UploadName(u);
      IndexAfterDigits(du, '-', u.originalName);
      IndexAfterDigits(dv, '-', v.originalName);
      assert du == n[..|du|] == dv;
      assert u.originalName == n[|du| + 1..] == v.originalName;
      NatToDecimalInjective(u.receivedAt, v.receivedAt);
    }
  }

  /** The path a record stores, prefixed with "." as the delete handlers do, names the file the middleware wrote. */
  lemma PublicPathResolves(u: Upload)
    ensures Resolve("." + PublicPath(u)) == DiskPath(u)
  {
    var p := "." + PublicPath(u);
    assert p[..2] == "./";
    assert p[2..] == DiskPath(u);
  }
}

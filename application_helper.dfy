/** The view helpers that show an extracted field: the value itself, or an
    emphasised "Not found", and the matching CSS class. */
module ApplicationHelper {
  import opened RubyText
  import opened JsonValues
  import opened Patterns

  /** ActiveSupport `blank?` on the values a field can hold. */
  predicate Blank(v: Json) {
    match v
    case JNull => true
    case JBool(b) => !b
    case JNum(_) => false
    case JStr(s) => BlankString(s)
    case JArr(items) => items == []
    case JObj(fields) => fields == map[]
  }

  /** A field the page reports as missing: blank, or the sentinel text. */
  predicate ShownAsMissing(v: Json) {
    Blank(v) || v == JStr(NotFound)
  }

  /** What the view receives: the value to print, or an `<em>` element with
      its text and class. */
  datatype Html = Value(v: Json) | Em(text: string, cssClass: string)

  /** `display_field` */
  function DisplayField(v: Json): (h: Html)
    ensures h.Value? <==> !ShownAsMissing(v)
    ensures h.Value? ==> h.v == v
    ensures h.Em? ==> h == Em(NotFound, "not-found")
  {
    if Blank(v) || v == JStr(NotFound) then Em("Not found", "not-found") else Value(v)
  }

  /** `field_status` */
  function FieldStatus(v: Json): (s: string)
    ensures s == "field-found" || s == "field-empty"
    ensures s == "field-found" <==> !ShownAsMissing(v)
  {
    if Blank(v) || v == JStr(NotFound) then "field-empty" else "field-found"
  }

  /** The two helpers agree: a value is printed exactly when its field is
      marked as found. */
  lemma {:induction false} DisplayMatchesStatus(v: Json)
    ensures DisplayField(v).Value? <==> FieldStatus(v) == "field-found"
    ensures DisplayField(v).Em? <==> FieldStatus(v) == "field-empty"
  {
  }

  /** A value the fallback expressions produce is found unless it is the
      sentinel, empty, or starts with a space character beyond ASCII that
      `strip` leaves but `blank?` counts. */
  lemma {:induction false} StrippedValueStatus(s: string)
    ensures FieldStatus(JStr(Strip(s))) == "field-empty" ==>
              Strip(s) == NotFound || Strip(s) == "" ||
              (Strip(s)[0] > '\U{7F}' && IsUnicodeSpace(Strip(s)[0]))
  {
    var r := Strip(s);
    if r != "" && BlankString(r) {
      assert IsUnicodeSpace(r[0]) && !IsStripChar(r[0]);
    }
  }
}

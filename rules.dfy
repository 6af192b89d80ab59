/**
 * The Laravel validation rules used by the form requests, over one request
 * field. A field is absent, null, a string, a number (already read as integer
 * cents) or some other JSON value (a boolean, an array).
 *
 * The framework runs every rule on a required field. On an optional field the
 * other rules run only when the value is present and not blank, and with
 * `nullable` not null either.
 */
module Rules {
  datatype Value = Absent | Null | Text(s: string) | Number(cents: int) | Other

  /** PHP's trim() removes these characters. */
  predicate IsSpace(c: char) { c == ' ' || c == '\t' || c == '\n' || c == '\r' || c == '\0' || c == '\U{B}' }

  predicate Blank(s: string) { forall i :: 0 <= i < |s| ==> IsSpace(s[i]) }

  /** The value the default middleware turns into null: null itself or a blank string. */
  predicate Nullish(v: Value) { v.Null? || (v.Text? && Blank(v.s)) }

  /** `required`: present, not null, not a blank string. */
  predicate Required(v: Value) { !v.Absent? && !Nullish(v) }

  /** A field with `nullable` whose remaining rules are skipped. */
  predicate Skipped(v: Value) { v.Absent? || Nullish(v) }

  /** `string` */
  predicate IsString(v: Value) { v.Text? }

  /** `numeric` */
  predicate IsNumeric(v: Value) { v.Number? }

  /** `max:n` on a string: at most n characters. */
  predicate MaxLength(v: Value, n: nat) { v.Text? && |v.s| <= n }

  /** `min:n` on a string: at least n characters. */
  predicate MinLength(v: Value, n: nat) { v.Text? && |v.s| >= n }

  /** `min:c` on a number. */
  predicate AtLeast(v: Value, c: int) { v.Number? && v.cents >= c }

  /** `gt:c` on a number. */
  predicate GreaterThan(v: Value, c: int) { v.Number? && v.cents > c }

  /** `in:a,b,...` */
  predicate InList(v: Value, allowed: set<string>) { v.Text? && v.s in allowed }

  /** `exists:table,column`, with the column's values given as a set. */
  predicate ExistsIn(v: Value, column: set<string>) { v.Text? && v.s in column }

  /** `unique:table,column`, with the column's values given as a set. */
  predicate UniqueIn(v: Value, column: set<string>) { !(v.Text? && v.s in column) }

  /** `email`: only its string shape is modelled, not the address syntax. */
  predicate IsEmail(v: Value) { v.Text? }

  /** `$request->field ?? default` for a string field. */
  function TextOr(v: Value, default: string): string
  {
    if v.Text? && !Blank(v.s) then v.s else default
  }
}

/**
 * The shape every catalog form handler shares: express-validator rules that
 * each add a `{field, message}` error when they fail, and the responses a
 * handler can end in.
 *
 * A validation chain without `.bail()` runs all of its validators, and every
 * failing one adds its own error; `validationResult(req).array()` lists the
 * errors in the order the chains and their validators ran.
 */
module Forms {
  import opened Library

  datatype FieldError = FieldError(field: string, msg: string)

  /** One validator: no error when `ok`, otherwise exactly its own error. */
  function Check(ok: bool, field: string, msg: string): (r: seq<FieldError>)
    ensures ok <==> r == []
    ensures !ok ==> r == [FieldError(field, msg)]
  {
    if ok then [] else [FieldError(field, msg)]
  }

  /** validator's isLength({min, max}); it counts code points, as `|s|` does. */
  predicate LengthIn(s: string, min: nat, max: Option<nat>)
  {
    min <= |s| && (max.None? || |s| <= max.value)
  }

  /**
   * `.optional({checkFalsy: true}).isISO8601()`: an empty value skips the
   * check, any other value must be an ISO-8601 date.
   */
  predicate OptionalIso(lib: Primitives, v: string)
  {
    v == "" || lib.isISO8601(v)
  }

  /**
   * The `.toDate()` sanitizer followed by storing the value: validator's
   * toDate() turns an unparseable string, the empty string among them, into
   * null, which is stored as "no date".
   */
  function SanitizeDate(lib: Primitives, v: string): (r: Option<Time>)
    ensures v == "" ==> r == None
    ensures v != "" ==> r == lib.toDate(v)
  {
    if v == "" then None else lib.toDate(v)
  }

  /**
   * `trim().isLength({min: 1})`: the rule fails exactly on a value that is
   * empty or whitespace only.
   */
  lemma RequiredCheck(v: string, field: string, msg: string)
    ensures Check(LengthIn(Trim(v), 1, None), field, msg) == Check(!AllSpace(v), field, msg)
  {
    TrimEmptyIffAllSpace(v);
  }

  /** No field is reported twice. */
  predicate DistinctFields(errors: seq<FieldError>)
  {
    forall j, k | 0 <= j < k < |errors| :: errors[j].field != errors[k].field
  }

  /** A rule on a field no earlier error names keeps the report free of repeats. */
  lemma DistinctFieldsAppendCheck(a: seq<FieldError>, ok: bool, field: string, msg: string)
    requires DistinctFields(a)
    requires forall e | e in a :: e.field != field
    ensures DistinctFields(a + Check(ok, field, msg))
  {
    var r := a + Check(ok, field, msg);
    forall j, k | 0 <= j < k < |r| ensures r[j].field != r[k].field {
      if k >= |a| {
        assert r[j] in a;
      }
    }
  }

  /** Two error lists that name the same fields in the same order, whatever their messages. */
  predicate SameFields(a: seq<FieldError>, b: seq<FieldError>)
  {
    |a| == |b| && forall j | 0 <= j < |a| :: a[j].field == b[j].field
  }

  /** The same rule with two different messages extends aligned lists to aligned lists. */
  lemma SameFieldsAppendCheck(a: seq<FieldError>, b: seq<FieldError>, ok: bool, field: string, m1: string, m2: string)
    requires SameFields(a, b)
    ensures SameFields(a + Check(ok, field, m1), b + Check(ok, field, m2))
  {
  }

  /**
   * How a catalog request ends. `Record` is the entity a form or page is
   * about; `Related` is what a page lists beside it (a blocking set on a
   * refused delete).
   */
  datatype Outcome<Record, Related> =
    | Redirect(url: string)                                // 302 to a canonical URL
    | Show(record: Record, related: Related)               // a detail or delete-confirmation page
    | Redisplay(draft: Record, errors: seq<FieldError>)    // the form again, with the submitted draft
    | Blocked(record: Record, blocking: Related)            // delete refused: dependants exist
    | NotFound(message: string)                            // an error with status 404
    | Failed(reason: string)                               // any other error passed to next() or thrown

  /** A page count as JavaScript computes it; dividing by a limit of 0 gives a non-finite number. */
  datatype PageCount = Pages(count: nat) | NotFinite

  /**
   * `Math.ceil(itemCount / req.query.limit)` in the list pages: the fewest
   * pages of `limit` items that hold every item.
   */
  function CountPages(itemCount: nat, limit: nat): (r: PageCount)
    ensures limit == 0 <==> r.NotFinite?
    ensures r.Pages? ==> r.count * limit >= itemCount
    ensures r.Pages? && r.count > 0 ==> (r.count - 1) * limit < itemCount
  {
    if limit == 0 then NotFinite
    else
      var q := (itemCount + limit - 1) / limit;
      assert q * limit <= itemCount + limit - 1 < q * limit + limit;
      assert (q - 1) * limit == q * limit - limit;
      Pages(q)
  }
}

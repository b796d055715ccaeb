/**
 * The Author document (models/author.js): its stored fields, the schema's
 * one requirement, and the virtual getters `name`, `url`,
 * `date_of_birth_f`, `date_of_death_f` and `lifespan`.
 *
 * A first name the form left empty is the empty string, which JavaScript
 * treats as false, exactly as it treats an undefined one.
 */
module AuthorModel {
  import opened Library

  datatype Author = Author(
    firstName: string,
    familyName: string,
    dateOfBirth: Option<Time>,
    dateOfDeath: Option<Time>)

  /** The schema requires `family_name`; mongoose's required check refuses "". */
  predicate SchemaAccepts(a: Author)
    ensures SchemaAccepts(a) <==> Name(a) != ""
  {
    a.familyName != ""
  }

  /**
   * The `name` virtual: "family, first" when both names are set, the family
   * name alone when only it is set, and "" when the family name is not set.
   */
  function Name(a: Author): (r: string)
    ensures r == "" <==> a.familyName == ""
    ensures a.familyName <= r
    ensures |r| > |a.familyName| <==> a.firstName != "" && a.familyName != ""
    ensures |r| > |a.familyName| ==> r[|a.familyName|..] == ", " + a.firstName
  {
    if a.firstName != "" && a.familyName != "" then a.familyName + ", " + a.firstName
    else if a.familyName != "" then a.familyName
    else ""
  }

  const UrlPrefix: string := "/catalog/author/"

  /** The `url` virtual: the prefix followed by the document id, which can be read back. */
  function Url(id: Id): (r: string)
    ensures UrlPrefix <= r && r[|UrlPrefix|..] == id
  {
    UrlPrefix + id
  }

  /** Distinct authors have distinct URLs. */
  lemma UrlInjective(id1: Id, id2: Id)
    ensures Url(id1) == Url(id2) ==> id1 == id2
  {
    if Url(id1) == Url(id2) {
      assert id1 == Url(id1)[|UrlPrefix|..];
    }
  }

  const FormPattern: string := "YYYY-MM-DD"
  const DetailPattern: string := "MMM Do, YYYY"

  /** formDisplayDate(): "" for an absent date, the date as YYYY-MM-DD otherwise. */
  function FormDisplayDate(lib: Primitives, d: Option<Time>): (r: string)
    ensures d.None? ==> r == ""
    ensures d.Some? ==> r == lib.format(d.value, FormPattern)
  {
    match d
    case None => ""
    case Some(t) => lib.format(t, FormPattern)
  }

  /** detailDate(): "" for an absent date, the date as "MMM Do, YYYY" otherwise. */
  function DetailDate(lib: Primitives, d: Option<Time>): (r: string)
    ensures d.None? ==> r == ""
    ensures d.Some? ==> r == lib.format(d.value, DetailPattern)
  {
    match d
    case None => ""
    case Some(t) => lib.format(t, DetailPattern)
  }

  /** The `date_of_birth_f` virtual. */
  function BirthForForm(lib: Primitives, a: Author): string
  {
    FormDisplayDate(lib, a.dateOfBirth)
  }

  /** The `date_of_death_f` virtual. */
  function DeathForForm(lib: Primitives, a: Author): string
  {
    FormDisplayDate(lib, a.dateOfDeath)
  }

  /**
   * The `lifespan` virtual, as written: "Unknown" with no dates; otherwise
   * the two detail dates joined by " - ", an empty birth date shown as
   * "Unknown", and "Unknown" again when both detail dates come out empty.
   */
  function Lifespan(lib: Primitives, a: Author): (r: string)
    ensures a.dateOfBirth.None? && a.dateOfDeath.None? ==> r == "Unknown"
  {
    if a.dateOfBirth.None? && a.dateOfDeath.None? then "Unknown"
    else
      var born := DetailDate(lib, a.dateOfBirth);
      var dead := DetailDate(lib, a.dateOfDeath);
      if born == "" && dead == "" then "Unknown"
      else (if born == "" then "Unknown" else born) + " - " + dead
  }

  /**
   * When the formatter prints each present date as a non-empty string (moment
   * never prints a date as ""), the lifespan is "Unknown" exactly when both
   * dates are absent, and is otherwise (formatted birth or "Unknown") + " - "
   * + (formatted death or "").
   */
  lemma LifespanOfDates(lib: Primitives, a: Author)
    requires a.dateOfBirth.Some? ==> lib.format(a.dateOfBirth.value, DetailPattern) != ""
    requires a.dateOfDeath.Some? ==> lib.format(a.dateOfDeath.value, DetailPattern) != ""
    ensures Lifespan(lib, a) == "Unknown" <==> a.dateOfBirth.None? && a.dateOfDeath.None?
    ensures a.dateOfBirth.Some? || a.dateOfDeath.Some? ==>
      Lifespan(lib, a)
        == (if a.dateOfBirth.Some? then lib.format(a.dateOfBirth.value, DetailPattern) else "Unknown")
           + " - "
           + (if a.dateOfDeath.Some? then lib.format(a.dateOfDeath.value, DetailPattern) else "")
  {
    var r := Lifespan(lib, a);
    if a.dateOfBirth.Some? || a.dateOfDeath.Some? {
      var born := DetailDate(lib, a.dateOfBirth);
      var x := if born == "" then "Unknown" else born;
      assert r == x + " - " + DetailDate(lib, a.dateOfDeath);
      assert r[|x|] == ' ';
      assert r != "Unknown" by {
        assert forall i :: 0 <= i < |"Unknown"| ==> "Unknown"[i] != ' ';
      }
    }
  }
}

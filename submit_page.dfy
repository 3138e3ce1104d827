/** The "Submit" button of the defect form: validation, the new-product
    catalogue entry, the duplicate check and the append, in the order the
    page runs them. */
module SubmitPage {
  import opened Wrappers
  import opened DateTimes
  import opened Records
  import opened DefectForm
  import opened Submissions
  import opened SessionCache

  /** What the button press ends in. */
  datatype SubmitOutcome =
    | Invalid(message: string)   // the error box listing the violations
    | DuplicateFound             // "This submission already exists..."
    | TimestampError             // `strptime` raised on a cached timestamp
    | Submitted(caseNumber: string)

  /** One press of "Submit" at the instant `now`.  A form with violations
      changes nothing.  A valid form naming a new product adds it to both
      catalogues first, so the catalogue grows even when the duplicate
      check then rejects the submission; only a submission that is not a
      duplicate is appended. */
  method HandleSubmit(s: Session, f: Form, now: DateTime) returns (outcome: SubmitOutcome)
    requires s.Valid() && ValidDateTime(now)
    modifies s
    ensures s.Valid()
    ensures outcome.Invalid? <==> Violations(f, old(s.categories)) != []
    ensures outcome.Invalid? ==>
      && outcome.message == ErrorMessage(Messages(Violations(f, old(s.categories))))
      && s.categories == old(s.categories) && s.catalog == old(s.catalog)
    ensures !outcome.Invalid? ==>
      var added := if f.option == AddNewProduct then [f.newCategory] else [];
      s.categories == old(s.categories) + added && s.catalog == old(s.catalog) + added
    ensures var cand := Candidate(f, DateTimeText(now));
      !outcome.Invalid? ==>
        && (outcome == DuplicateFound <==> DuplicateScan(old(s.records), cand, now.date) == Some(true))
        && (outcome == TimestampError <==> DuplicateScan(old(s.records), cand, now.date) == None)
        && (outcome.Submitted? <==> DuplicateScan(old(s.records), cand, now.date) == Some(false))
    ensures outcome.Submitted? ==>
      var cand := Candidate(f, DateTimeText(now));
      && outcome.caseNumber == GenerateCaseNumber(old(s.records), now.date)
      && s.records == old(s.records) + [SubmittedRow(outcome.caseNumber, cand)]
      && s.sheet == old(s.sheet) + [[Str(outcome.caseNumber)] + cand]
    ensures !outcome.Submitted? ==> s.records == old(s.records) && s.sheet == old(s.sheet)
  {
    var errors := ValidateInputs(f, s.categories);
    if errors != [] {
      return Invalid(ErrorMessage(errors));
    }
    outcome := SubmitValid(s, f, now);
  }

  /** The part of the press after validation has passed: the catalogue
      update, the duplicate check over the cache, then the append. */
  method SubmitValid(s: Session, f: Form, now: DateTime) returns (outcome: SubmitOutcome)
    requires s.Valid() && ValidDateTime(now)
    modifies s
    ensures s.Valid() && !outcome.Invalid?
    ensures var added := if f.option == AddNewProduct then [f.newCategory] else [];
      s.categories == old(s.categories) + added && s.catalog == old(s.catalog) + added
    ensures CacheRows(old(s.records))
    ensures var cand := Candidate(f, DateTimeText(now));
      && (outcome == DuplicateFound <==> DuplicateScan(old(s.records), cand, now.date) == Some(true))
      && (outcome == TimestampError <==> DuplicateScan(old(s.records), cand, now.date) == None)
      && (outcome.Submitted? <==> DuplicateScan(old(s.records), cand, now.date) == Some(false))
    ensures outcome.Submitted? ==>
      var cand := Candidate(f, DateTimeText(now));
      && outcome.caseNumber == GenerateCaseNumber(old(s.records), now.date)
      && s.records == old(s.records) + [SubmittedRow(outcome.caseNumber, cand)]
      && s.sheet == old(s.sheet) + [[Str(outcome.caseNumber)] + cand]
    ensures !outcome.Submitted? ==> s.records == old(s.records) && s.sheet == old(s.sheet)
  {
    var cand := Candidate(f, DateTimeText(now));
    if f.option == AddNewProduct {
      s.AddCategory(f.newCategory);
    }
    SessionRowsAreCacheRows(s.records);
    var dup := DuplicateScan(s.records, cand, now.date);
    if dup == None {
      return TimestampError;
    } else if dup.value {
      return DuplicateFound;
    }
    var caseNumber := s.SubmitDefect(cand, now.date);
    return Submitted(caseNumber);
  }
}

/**
 * The client's search filter over the employee list, and its stand-alone email-syntax check.
 */
module Helpers {
  import opened Wrappers
  import opened Text
  import opened Records
  import Seqs

  /** `field?.toLowerCase() || ''` includes the lower-cased term; a missing field reads as ''. */
  predicate FieldMatches(field: Option<string>, loweredTerm: string) {
    Contains(Lower(field.GetOr("")), loweredTerm)
  }

  /** One of the four searchable fields (name, email, position, department) includes the term. */
  predicate Matches(e: Employee, loweredTerm: string) {
    || FieldMatches(e.name, loweredTerm)
    || FieldMatches(e.email, loweredTerm)
    || FieldMatches(e.position, loweredTerm)
    || FieldMatches(e.department, loweredTerm)
  }

  /**
   * `filterEmployees`: a blank term returns the list itself; otherwise the employees matching
   * the lower-cased, untrimmed term, in their original order.
   */
  function FilterEmployees(employees: seq<Employee>, searchTerm: string): seq<Employee> {
    if IsBlank(searchTerm) then employees
    else Seqs.Select(employees, e => Matches(e, Lower(searchTerm)))
  }

  /** An empty or whitespace-only term leaves the list untouched. */
  lemma FilterBlankIsIdentity(employees: seq<Employee>, searchTerm: string)
    requires forall k :: 0 <= k < |searchTerm| ==> IsWhitespace(searchTerm[k])
    ensures FilterEmployees(employees, searchTerm) == employees
  {
  }

  /** The result keeps the input's relative order and adds nothing. */
  lemma FilterIsSubsequence(employees: seq<Employee>, searchTerm: string)
    ensures Seqs.IsSubsequence(FilterEmployees(employees, searchTerm), employees)
    ensures |FilterEmployees(employees, searchTerm)| <= |employees|
  {
    if IsBlank(searchTerm) {
      Seqs.SubsequenceReflexive(employees);
    } else {
      Seqs.SelectIsSubsequence(employees, e => Matches(e, Lower(searchTerm)));
    }
  }

  /** Soundness: every kept employee has a searchable field containing the term. */
  lemma FilterSound(employees: seq<Employee>, searchTerm: string)
    requires !IsBlank(searchTerm)
    ensures forall e :: e in FilterEmployees(employees, searchTerm) ==>
              e in employees && Matches(e, Lower(searchTerm))
  {
  }

  /** Completeness: every input employee with a matching field is kept. */
  lemma FilterComplete(employees: seq<Employee>, searchTerm: string)
    ensures forall e :: e in employees && Matches(e, Lower(searchTerm)) ==>
              e in FilterEmployees(employees, searchTerm)
  {
    if !IsBlank(searchTerm) {
      forall e | e in employees && Matches(e, Lower(searchTerm))
        ensures e in FilterEmployees(employees, searchTerm)
      {
        Seqs.SelectKeeps(employees, e => Matches(e, Lower(searchTerm)), e);
      }
    }
  }

  /** Together: each employee occurs in the result exactly as often as in the input if it matches, else never. */
  lemma FilterCount(employees: seq<Employee>, searchTerm: string, e: Employee)
    ensures multiset(FilterEmployees(employees, searchTerm))[e] ==
            if IsBlank(searchTerm) || Matches(e, Lower(searchTerm)) then multiset(employees)[e] else 0
  {
    if !IsBlank(searchTerm) {
      Seqs.SelectCount(employees, e => Matches(e, Lower(searchTerm)), e);
    }
  }

  /** A missing field reads as '' and so never matches a non-blank term. */
  lemma MissingFieldNeverMatches(searchTerm: string)
    requires !IsBlank(searchTerm)
    ensures !FieldMatches(None, Lower(searchTerm))
  {
    assert Lower(searchTerm) != [];
  }

  /** An employee with none of the four searchable fields is dropped by every non-blank term. */
  lemma NoSearchableFieldsNeverKept(employees: seq<Employee>, searchTerm: string, e: Employee)
    requires !IsBlank(searchTerm)
    requires e.name == None && e.email == None && e.position == None && e.department == None
    ensures e !in FilterEmployees(employees, searchTerm)
  {
    MissingFieldNeverMatches(searchTerm);
  }

  /** The employee the untrimmed-term example searches for: only a name, "Bob". */
  function Bob(): Employee {
    Employee(Some(1), None, Some("Bob"), None, None, None, None)
  }

  lemma BobMatches(term: string)
    requires term == "bob" || term == " bob"
    ensures Matches(Bob(), term) <==> term == "bob"
  {
    assert Lower("Bob") == "bob";
    assert StartsWith("bob", "bob");
    assert !StartsWith("bob", " bob") && !StartsWith("ob", " bob") && !StartsWith("b", " bob");
    assert !Contains("", " bob");
    assert !Contains("bob", " bob");
  }

  /**
   * Only the blank test trims: the spaces around " bob" take part in the match, so that term
   * misses an employee named "Bob" whom "bob" finds.
   */
  lemma MatchingUsesUntrimmedTerm()
    ensures FilterEmployees([Bob()], "bob") == [Bob()]
    ensures FilterEmployees([Bob()], " bob") == []
  {
    assert !IsWhitespace("bob"[0]) && !IsWhitespace(" bob"[1]);
    assert Lower("bob") == "bob" && Lower(" bob") == " bob";
    BobMatches("bob");
    BobMatches(" bob");
    assert [Bob()][1..] == [];
  }

  /** `[^\s@]+`: a non-empty run of characters that are neither whitespace nor '@'. */
  predicate IsToken(s: string) {
    s != [] && forall i :: 0 <= i < |s| ==> !IsWhitespace(s[i]) && s[i] != '@'
  }

  /** `[^\s@]+\.[^\s@]+`: two tokens joined by a dot. */
  predicate IsDottedPart(s: string) {
    exists q :: 0 < q < |s| && s[q] == '.' && IsToken(s[..q]) && IsToken(s[q + 1..])
  }

  /** `isValidEmail`: the test of `/^[^\s@]+@[^\s@]+\.[^\s@]+$/` against the whole string. */
  predicate IsValidEmail(email: string) {
    exists p :: 0 < p < |email| && email[p] == '@' && IsToken(email[..p]) && IsDottedPart(email[p + 1..])
  }

  /** The shape the regular expression describes: L@D.T with three tokens (D may hold dots). */
  ghost predicate EmailShape(s: string) {
    exists local, domain, tld :: IsToken(local) && IsToken(domain) && IsToken(tld) &&
      s == local + "@" + domain + "." + tld
  }

  lemma {:induction false} MatchHasShape(email: string, p: nat, q: nat)
    requires 0 < p < |email| && email[p] == '@' && IsToken(email[..p])
    requires 0 < q < |email[p + 1..]| && email[p + 1..][q] == '.'
    requires IsToken(email[p + 1..][..q]) && IsToken(email[p + 1..][q + 1..])
    ensures EmailShape(email)
  {
    var rest := email[p + 1..];
    var local, domain, tld := email[..p], rest[..q], rest[q + 1..];
    assert rest == domain + "." + tld;
    assert email == local + "@" + rest;
  }

  lemma {:induction false} ShapeMatches(email: string, local: string, domain: string, tld: string)
    requires IsToken(local) && IsToken(domain) && IsToken(tld)
    requires email == local + "@" + domain + "." + tld
    ensures IsValidEmail(email)
  {
    var p := |local|;
    var rest := email[p + 1..];
    assert email[..p] == local;
    assert rest == domain + "." + tld;
    assert rest[..|domain|] == domain && rest[|domain| + 1..] == tld;
    assert IsDottedPart(rest);
  }

  /** The executable test and the L@D.T shape agree on every string. */
  lemma IsValidEmailIffShape(email: string)
    ensures IsValidEmail(email) <==> EmailShape(email)
  {
    if IsValidEmail(email) {
      var p :| 0 < p < |email| && email[p] == '@' && IsToken(email[..p]) && IsDottedPart(email[p + 1..]);
      var rest := email[p + 1..];
      var q :| 0 < q < |rest| && rest[q] == '.' && IsToken(rest[..q]) && IsToken(rest[q + 1..]);
      MatchHasShape(email, p, q);
    }
    if EmailShape(email) {
      var local, domain, tld :| IsToken(local) && IsToken(domain) && IsToken(tld) &&
        email == local + "@" + domain + "." + tld;
      ShapeMatches(email, local, domain, tld);
    }
  }

  /** Neither half of `[^\s@]+\.[^\s@]+` holds whitespace or '@', and the dot between them is neither. */
  lemma DottedPartChars(s: string, q: nat)
    requires 0 < q < |s| && s[q] == '.' && IsToken(s[..q]) && IsToken(s[q + 1..])
    ensures forall i :: 0 <= i < |s| ==> !IsWhitespace(s[i]) && s[i] != '@'
  {
    forall i | 0 <= i < |s|
      ensures !IsWhitespace(s[i]) && s[i] != '@'
    {
      if i < q {
        assert s[i] == s[..q][i];
      } else if i > q {
        assert s[i] == s[q + 1..][i - q - 1];
      }
    }
  }

  /** A string whose only '@' is at `p` and which has no whitespace elsewhere has exactly one '@' and no whitespace. */
  lemma OnlyAtAt(email: string, p: nat, local: string, rest: string)
    requires p < |email| && email[p] == '@' && local == email[..p] && rest == email[p + 1..]
    requires forall i :: 0 <= i < |local| ==> !IsWhitespace(local[i]) && local[i] != '@'
    requires forall i :: 0 <= i < |rest| ==> !IsWhitespace(rest[i]) && rest[i] != '@'
    ensures multiset(email)['@'] == 1
    ensures forall i :: 0 <= i < |email| ==> !IsWhitespace(email[i])
  {
    forall i | 0 <= i < |email|
      ensures !IsWhitespace(email[i])
    {
      if i < p {
        assert email[i] == local[i];
      } else if i > p {
        assert email[i] == rest[i - p - 1];
      }
    }
    assert email == local + [email[p]] + rest;
    assert multiset(email) == multiset(local) + multiset([email[p]]) + multiset(rest);
    assert '@' !in local && '@' !in rest;
  }

  /** A valid address holds exactly one '@' and no whitespace. */
  lemma ValidEmailHasOneAtAndNoWhitespace(email: string)
    requires IsValidEmail(email)
    ensures multiset(email)['@'] == 1
    ensures forall i :: 0 <= i < |email| ==> !IsWhitespace(email[i])
  {
    var p :| 0 < p < |email| && email[p] == '@' && IsToken(email[..p]) && IsDottedPart(email[p + 1..]);
    var rest := email[p + 1..];
    var q :| 0 < q < |rest| && rest[q] == '.' && IsToken(rest[..q]) && IsToken(rest[q + 1..]);
    DottedPartChars(rest, q);
    OnlyAtAt(email, p, email[..p], rest);
  }
}

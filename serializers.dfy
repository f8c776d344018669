/** The request validators of the back end: the lead create/update check
    (product and division agree, probability is set once, phone and e-mail
    shape, no second lead for a company), the workload a personnel record
    reports, and the login check with `authenticate` as a parameter. */
module Serializers {
  import opened Basics
  import opened Models
  import Text

  // ---------------------------------------------------------------------
  // Character classes of the two regular expressions (ASCII part)

  /** `[\+\d\s\-]`, `[a-zA-Z0-9_.+-]`, `[a-zA-Z0-9-]` and `[a-zA-Z0-9-.]`. */
  datatype CharClass = PhoneClass | LocalClass | DomainClass | TldClass

  predicate InClass(k: CharClass, c: char)
  {
    match k
      case PhoneClass => c == '+' || Text.IsDigit(c) || Text.PySpace(c) || c == '-'
      case LocalClass => Text.IsAlnum(c) || c == '_' || c == '.' || c == '+' || c == '-'
      case DomainClass => Text.IsAlnum(c) || c == '-'
      case TldClass => Text.IsAlnum(c) || c == '-' || c == '.'
  }

  predicate AllIn(s: string, k: CharClass)
  {
    forall i :: 0 <= i < |s| ==> InClass(k, s[i])
  }

  lemma AllInAppend(a: string, b: string, k: CharClass)
    ensures AllIn(a + b, k) <==> AllIn(a, k) && AllIn(b, k)
  {
    if AllIn(a, k) && AllIn(b, k) {
      forall i | 0 <= i < |a + b| ensures InClass(k, (a + b)[i]) {
        if i >= |a| {
          assert (a + b)[i] == b[i - |a|];
        }
      }
    }
    if AllIn(a + b, k) {
      forall i | 0 <= i < |a| ensures InClass(k, a[i]) {
        assert (a + b)[i] == a[i];
      }
      forall i | 0 <= i < |b| ensures InClass(k, b[i]) {
        assert (a + b)[|a| + i] == b[i];
      }
    }
  }

  // ---------------------------------------------------------------------
  // Phone numbers

  /** `re.sub(r'\D', '', phone)`: the digits of the string, in order. */
  function Digits(s: string): (r: string)
    ensures |r| <= |s|
    ensures forall i :: 0 <= i < |r| ==> Text.IsDigit(r[i])
  {
    if s == [] then []
    else (if Text.IsDigit(s[0]) then [s[0]] else []) + Digits(s[1..])
  }

  lemma {:induction false} DigitsAppend(a: string, b: string)
    ensures Digits(a + b) == Digits(a) + Digits(b)
  {
    if a != [] {
      assert (a + b)[1..] == a[1..] + b;
      DigitsAppend(a[1..], b);
    } else {
      assert a + b == b;
    }
  }

  /** A phone number passes when it is made of `+`, digits, white space and
      `-` only, with at least seven digits. (`$` may also stand before a
      final line feed, but a line feed is white space and so in the class.) */
  predicate PhoneOk(phone: string)
  {
    phone != [] && AllIn(phone, PhoneClass) && |Digits(phone)| >= 7
  }

  /** Spaces and dashes are free: putting one anywhere in a number does not
      change whether it is accepted, as long as the number is not empty. */
  lemma SeparatorIsFree(a: string, b: string, sep: char)
    requires sep == ' ' || sep == '-'
    requires a + b != []
    ensures PhoneOk(a + [sep] + b) <==> PhoneOk(a + b)
  {
    DigitsAppend(a, [sep]);
    DigitsAppend(a + [sep], b);
    DigitsAppend(a, b);
    assert Digits([sep]) == [];
    AllInAppend(a, [sep], PhoneClass);
    AllInAppend(a + [sep], b, PhoneClass);
    AllInAppend(a, b, PhoneClass);
  }

  /** An accepted number has at least seven characters, and one letter
      anywhere makes a number unacceptable. */
  lemma PhoneShape(a: string, x: char, b: string)
    requires Text.IsLowerLetter(x) || Text.IsUpperLetter(x)
    ensures !PhoneOk(a + [x] + b)
    ensures forall s :: PhoneOk(s) ==> |s| >= 7
  {
    assert (a + [x] + b)[|a|] == x;
  }

  // ---------------------------------------------------------------------
  // E-mail addresses

  /** `local@domain.rest` assembled from its three parts. */
  function EmailOf(local: string, domain: string, rest: string): string
  {
    local + "@" + domain + "." + rest
  }

  /** The parts match `[a-zA-Z0-9_.+-]+`, `[a-zA-Z0-9-]+` and `[a-zA-Z0-9-.]+`. */
  predicate EmailParts(local: string, domain: string, rest: string)
  {
    local != [] && AllIn(local, LocalClass) &&
    domain != [] && AllIn(domain, DomainClass) &&
    rest != [] && AllIn(rest, TldClass)
  }

  /** How the expression engine settles the pattern on `s`: no class contains
      `@`, so the local part ends at the first `@`; the domain class has no
      `.`, so the domain ends at the first `.` after it. `None` when either
      separator is missing. */
  function SplitEmail(s: string): Option<(string, string, string)>
  {
    if '@' !in s then None
    else
      var k := Text.IndexOf(s, '@');
      var after := s[k + 1..];
      if '.' !in after then None
      else
        var j := Text.IndexOf(after, '.');
        Some((s[..k], after[..j], after[j + 1..]))
  }

  /** The whole pattern from `^` to the end of the string. */
  predicate MatchesEmail(s: string)
  {
    var parts := SplitEmail(s);
    parts.Some? && EmailParts(parts.value.0, parts.value.1, parts.value.2)
  }

  /** `re.match(pattern, email)` with the pattern anchored by `^` and `$`:
      `$` also matches just before one final line feed. */
  predicate EmailOk(email: string)
  {
    MatchesEmail(email) || (email != [] && email[|email| - 1] == '\n' && MatchesEmail(email[..|email| - 1]))
  }

  lemma NoSeparatorIn(s: string, k: CharClass)
    requires AllIn(s, k) && k != PhoneClass
    ensures '@' !in s && '\n' !in s
    ensures k == DomainClass ==> '.' !in s
  {
  }

  /** Every address built from well-formed parts matches, and is split back
      into those parts ... */
  lemma PartsMatch(local: string, domain: string, rest: string)
    requires EmailParts(local, domain, rest)
    ensures SplitEmail(EmailOf(local, domain, rest)) == Some((local, domain, rest))
    ensures MatchesEmail(EmailOf(local, domain, rest))
  {
    NoSeparatorIn(local, LocalClass);
    NoSeparatorIn(domain, DomainClass);
    SplitOf(local, domain, rest);
  }

  /** The split finds the first `@` and the first `.` after it. */
  lemma SplitOf(local: string, domain: string, rest: string)
    requires '@' !in local && '.' !in domain
    ensures SplitEmail(EmailOf(local, domain, rest)) == Some((local, domain, rest))
  {
    var after := domain + ['.'] + rest;
    var s := local + ['@'] + after;
    EmailOfNested(local, domain, rest);
    Text.IndexOfSplit(local, '@', after);
    assert s[..|local|] == local && s[|local| + 1..] == after;
    Text.IndexOfSplit(domain, '.', rest);
    assert after[..|domain|] == domain && after[|domain| + 1..] == rest;
  }

  /** ... and every matching string is the address of its parts, so the
      matcher accepts exactly the language of the pattern. */
  lemma MatchHasParts(s: string)
    requires MatchesEmail(s)
    ensures EmailParts(SplitEmail(s).value.0, SplitEmail(s).value.1, SplitEmail(s).value.2)
    ensures s == EmailOf(SplitEmail(s).value.0, SplitEmail(s).value.1, SplitEmail(s).value.2)
  {
    var k := Text.IndexOf(s, '@');
    var after := s[k + 1..];
    var j := Text.IndexOf(after, '.');
    var local, domain, rest := s[..k], after[..j], after[j + 1..];
    assert SplitEmail(s) == Some((local, domain, rest));
    JoinAt(after, j);
    JoinAt(s, k);
    EmailOfNested(local, domain, rest);
  }

  lemma EmailOfNested(local: string, domain: string, rest: string)
    ensures EmailOf(local, domain, rest) == local + ['@'] + (domain + ['.'] + rest)
  {
  }

  lemma JoinAt(s: string, k: nat)
    requires k < |s|
    ensures s == s[..k] + [s[k]] + s[k + 1..]
  {
  }

  /** A matching string holds no line feed at all. */
  lemma MatchHasNoNewline(s: string)
    ensures MatchesEmail(s) ==> '\n' !in s
  {
    if MatchesEmail(s) {
      MatchHasParts(s);
      var p := SplitEmail(s).value;
      NoSeparatorIn(p.0, LocalClass);
      NoSeparatorIn(p.1, DomainClass);
      NoSeparatorIn(p.2, TldClass);
    }
  }

  /** One final line feed after an address is let through ... */
  lemma TrailingNewline(local: string, domain: string, rest: string)
    requires EmailParts(local, domain, rest)
    ensures EmailOk(EmailOf(local, domain, rest) + "\n")
  {
    var s := EmailOf(local, domain, rest);
    PartsMatch(local, domain, rest);
    var t := s + "\n";
    assert t[..|t| - 1] == s;
  }

  /** ... and a second one is not. */
  lemma SecondNewline(s: string)
    ensures !EmailOk(s + "\n\n")
  {
    var t := s + "\n\n";
    assert t[..|t| - 1] == s + "\n";
    LastIn(s, '\n');
    LastIn(s + "\n", '\n');
    MatchHasNoNewline(t);
    MatchHasNoNewline(s + "\n");
  }

  lemma LastIn(s: string, c: char)
    ensures c in s + [c]
  {
    assert (s + [c])[|s|] == c;
  }

  // ---------------------------------------------------------------------
  // The lead validator

  /** The attributes a create or update request supplies (after field
      validation); `product` is the resolved Product row, or null. Fields the
      validator does not read are not listed. */
  datatype LeadAttrs = LeadAttrs(
    company: Field<string>,
    division: Field<string>,
    product: Field<Option<Product>>,
    probability: Field<int>,
    phone: Field<string>,
    email: Field<string>)

  /** What a create request for the draft row supplies: every field, since a
      create fills the ones left out with the model's defaults, which the
      validator treats as it treats the absent field. */
  function CreateAttrs(draft: Lead, product: Option<Product>): LeadAttrs
  {
    LeadAttrs(Given(draft.company), Given(draft.division), Given(product), Given(draft.probability),
      Given(draft.phone), Given(draft.email))
  }

  /** The instance being updated, with its product row; `None` on create. */
  datatype Instance = Instance(lead: Lead, product: Option<Product>)

  datatype LeadError =
    | ProductDivisionMismatch
    | ProbabilityLocked
    | InvalidPhone
    | InvalidEmail
    | DuplicateCompany(company: string)

  datatype Checked = Accepted(attrs: LeadAttrs) | Rejected(error: LeadError)

  /** The division the operation targets: supplied, else the instance's. */
  function TargetDivision(attrs: LeadAttrs, instance: Option<Instance>): Option<string>
  {
    if attrs.division.Given? then Some(attrs.division.value)
    else if instance.Some? then Some(instance.value.lead.division)
    else None
  }

  /** The product the operation targets: supplied, else the instance's. */
  function TargetProduct(attrs: LeadAttrs, instance: Option<Instance>): Option<Product>
  {
    if attrs.product.Given? then attrs.product.value
    else if instance.Some? then instance.value.product
    else None
  }

  /** Both a product and a (non-empty) division are known and they differ. */
  predicate ProductConflict(attrs: LeadAttrs, instance: Option<Instance>)
  {
    var d := TargetDivision(attrs, instance);
    var p := TargetProduct(attrs, instance);
    p.Some? && d.Some? && d.value != "" && p.value.division != d.value
  }

  /** An update that sends a probability different from the stored one. */
  predicate ProbabilityChanged(attrs: LeadAttrs, instance: Option<Instance>)
  {
    instance.Some? && attrs.probability.Given? && attrs.probability.value != instance.value.lead.probability
  }

  predicate PhoneRejected(attrs: LeadAttrs)
  {
    attrs.phone.Given? && attrs.phone.value != "" && !PhoneOk(attrs.phone.value)
  }

  predicate EmailRejected(attrs: LeadAttrs)
  {
    attrs.email.Given? && attrs.email.value != "" && !EmailOk(attrs.email.value)
  }

  /** Some stored lead (deleted ones included) has `key` as its company,
      ignoring case. */
  function CompanyTaken(leads: seq<Lead>, key: string): (r: bool)
    ensures r <==> exists i :: 0 <= i < |leads| && Text.Lower(leads[i].company) == Text.Lower(key)
  {
    if leads == [] then false
    else if Text.Lower(leads[0].company) == Text.Lower(key) then true
    else
      var r := CompanyTaken(leads[1..], key);
      assert forall i :: 1 <= i < |leads| ==> leads[i] == leads[1..][i - 1];
      assert r ==> exists i :: 0 <= i < |leads| && Text.Lower(leads[i].company) == Text.Lower(key) by {
        if r {
          var i :| 0 <= i < |leads[1..]| && Text.Lower(leads[1..][i].company) == Text.Lower(key);
          assert leads[i + 1] == leads[1..][i];
        }
      }
      r
  }

  /** A create whose company, stripped, equals a stored company up to case. */
  predicate Duplicate(attrs: LeadAttrs, instance: Option<Instance>, leads: seq<Lead>)
  {
    instance.None? && attrs.company.Given? && attrs.company.value != "" &&
    CompanyTaken(leads, Text.Trim(attrs.company.value, Text.Py))
  }

  /** `LeadCreateSerializer.validate`: the checks run in a fixed order and
      the first one that fails is reported; otherwise the attributes pass
      through unchanged. */
  function Validate(attrs: LeadAttrs, instance: Option<Instance>, leads: seq<Lead>): (r: Checked)
    ensures r.Accepted? ==> r.attrs == attrs
    ensures r.Accepted? <==>
      !ProductConflict(attrs, instance) && !ProbabilityChanged(attrs, instance) &&
      !PhoneRejected(attrs) && !EmailRejected(attrs) && !Duplicate(attrs, instance, leads)
    ensures r == Rejected(ProductDivisionMismatch) <==> ProductConflict(attrs, instance)
    ensures r == Rejected(ProbabilityLocked) <==> !ProductConflict(attrs, instance) && ProbabilityChanged(attrs, instance)
    ensures r == Rejected(InvalidPhone) <==>
      !ProductConflict(attrs, instance) && !ProbabilityChanged(attrs, instance) && PhoneRejected(attrs)
    ensures r == Rejected(InvalidEmail) <==>
      !ProductConflict(attrs, instance) && !ProbabilityChanged(attrs, instance) && !PhoneRejected(attrs) && EmailRejected(attrs)
    ensures r.Rejected? && r.error.DuplicateCompany? ==> r.error.company == attrs.company.value && Duplicate(attrs, instance, leads)
  {
    if ProductConflict(attrs, instance) then Rejected(ProductDivisionMismatch)
    else if ProbabilityChanged(attrs, instance) then Rejected(ProbabilityLocked)
    else if PhoneRejected(attrs) then Rejected(InvalidPhone)
    else if EmailRejected(attrs) then Rejected(InvalidEmail)
    else if Duplicate(attrs, instance, leads) then Rejected(DuplicateCompany(attrs.company.value))
    else Accepted(attrs)
  }

  /** The probability is set once: a create takes any value, an update may
      send the stored value again, and any other value is refused unless an
      earlier check already refused the request. */
  lemma ProbabilitySetOnce(attrs: LeadAttrs, l: Lead, product: Option<Product>, leads: seq<Lead>, q: int)
    ensures !ProbabilityChanged(attrs.(probability := Given(q)), None)
    ensures !ProbabilityChanged(attrs.(probability := Given(l.probability)), Some(Instance(l, product)))
    ensures q != l.probability ==>
      Validate(attrs.(probability := Given(q)), Some(Instance(l, product)), leads).Rejected?
  {
  }

  /** An update never meets the duplicate check, so an existing lead can
      keep (or resend) its company name. */
  lemma UpdateSkipsDuplicateCheck(attrs: LeadAttrs, i: Instance, leads: seq<Lead>)
    ensures !Duplicate(attrs, Some(i), leads)
    ensures Validate(attrs, Some(i), leads) == Validate(attrs, Some(i), [])
  {
  }

  /** On create, a company that matches a stored one after stripping and up
      to case is refused, if no earlier check refused the request first. */
  lemma {:induction false} CreateRefusesDuplicate(attrs: LeadAttrs, leads: seq<Lead>, k: nat)
    requires k < |leads| && attrs.company.Given? && attrs.company.value != ""
    requires Text.Lower(Text.Trim(attrs.company.value, Text.Py)) == Text.Lower(leads[k].company)
    ensures Validate(attrs, None, leads).Rejected?
  {
    assert Text.Lower(leads[k].company) == Text.Lower(Text.Trim(attrs.company.value, Text.Py));
  }

  /** Without a product, or without a division, the product check never fails;
      an update that sends neither keeps the instance's own pairing. */
  lemma ProductCheckNeedsBoth(attrs: LeadAttrs, instance: Option<Instance>)
    ensures TargetProduct(attrs, instance).None? ==> !ProductConflict(attrs, instance)
    ensures attrs.division.Absent? && instance.None? ==> !ProductConflict(attrs, instance)
    ensures attrs.division.Absent? && attrs.product.Absent? && instance.Some? ==>
      (ProductConflict(attrs, instance) <==>
        (instance.value.product.Some? && instance.value.lead.division != "" &&
         instance.value.product.value.division != instance.value.lead.division))
  {
  }

  // ---------------------------------------------------------------------
  // Personnel workload

  /** `get_workload`: the `active_workload` annotation when the queryset
      carries one, otherwise the `workload` property. */
  function GetWorkload(annotated: Option<int>, leads: seq<Lead>, p: Personnel): int
  {
    if annotated.Some? then annotated.value else Workload(leads, p.id)
  }

  /** The person's assigned leads (`assigned_leads`), in table order. */
  function AssignedLeads(leads: seq<Lead>, personId: nat): (r: seq<Lead>)
    ensures |r| <= |leads|
    ensures forall l :: l in r ==> l in leads && l.assignedTo == Some(personId)
  {
    if leads == [] then []
    else (if leads[0].assignedTo == Some(personId) then [leads[0]] else []) + AssignedLeads(leads[1..], personId)
  }

  /** How many of `ls` are not deleted and in an open status. */
  function OpenCount(ls: seq<Lead>): (n: nat)
    ensures n <= |ls|
  {
    if ls == [] then 0
    else (if !ls[0].isDeleted && ls[0].status in ActiveWorkloadStatuses then 1 else 0) + OpenCount(ls[1..])
  }

  /** The annotation the personnel listing adds: `Count('assigned_leads')`
      restricted to rows not deleted and in an open status. */
  function AnnotatedWorkload(leads: seq<Lead>, personId: nat): nat
  {
    OpenCount(AssignedLeads(leads, personId))
  }

  /** Both sources give the same number, so the annotated and the
      unannotated listing report the same workload. */
  lemma {:induction false} AnnotationAgrees(leads: seq<Lead>, p: Personnel)
    ensures AnnotatedWorkload(leads, p.id) == Workload(leads, p.id)
    ensures GetWorkload(Some(AnnotatedWorkload(leads, p.id)), leads, p) == GetWorkload(None, leads, p)
  {
    if leads != [] {
      AnnotationAgrees(leads[1..], p);
      var head := if leads[0].assignedTo == Some(p.id) then [leads[0]] else [];
      var tail := AssignedLeads(leads[1..], p.id);
      assert AssignedLeads(leads, p.id) == head + tail;
      if head != [] {
        assert (head + tail)[1..] == tail;
      } else {
        assert head + tail == tail;
      }
    }
  }

  // ---------------------------------------------------------------------
  // Login

  datatype LoginError = MissingCredentials | InvalidCredentials | AccountDisabled | PersonnelInactive

  datatype Login = LoggedIn(user: Personnel) | LoginRejected(error: LoginError)

  /** `PersonnelLoginSerializer.validate`, with `authenticate` a parameter
      that returns the matching user or `None`. */
  function ValidateLogin(username: Option<string>, password: Option<string>,
                         authenticate: (string, string) -> Option<Personnel>): (r: Login)
    ensures r.LoggedIn? <==>
      (Supplied(username) && Supplied(password) &&
       authenticate(username.value, password.value).Some? &&
       authenticate(username.value, password.value).value.isActive &&
       authenticate(username.value, password.value).value.isActivePersonnel)
    ensures r.LoggedIn? ==> Some(r.user) == authenticate(username.value, password.value)
    ensures !(Supplied(username) && Supplied(password)) ==> r == LoginRejected(MissingCredentials)
  {
    if Supplied(username) && Supplied(password) then
      match authenticate(username.value, password.value)
        case None => LoginRejected(InvalidCredentials)
        case Some(user) =>
          if !user.isActive then LoginRejected(AccountDisabled)
          else if !user.isActivePersonnel then LoginRejected(PersonnelInactive)
          else LoggedIn(user)
    else LoginRejected(MissingCredentials)
  }

  /** A missing field is reported before any credential is looked at, and a
      disabled account is reported before inactive personnel. */
  lemma LoginReportingOrder(username: Option<string>, password: Option<string>,
                            a: (string, string) -> Option<Personnel>, b: (string, string) -> Option<Personnel>)
    ensures !(Supplied(username) && Supplied(password)) ==> ValidateLogin(username, password, a) == ValidateLogin(username, password, b)
    ensures (Supplied(username) && Supplied(password) && a(username.value, password.value).Some? &&
             !a(username.value, password.value).value.isActive) ==>
      ValidateLogin(username, password, a) == LoginRejected(AccountDisabled)
  {
  }
}

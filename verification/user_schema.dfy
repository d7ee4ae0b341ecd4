/**
 * The registration schema `createUserFormSchema`: the rules a candidate
 * record must meet, field by field, the issues reported for the rules it
 * breaks, and the normalised record produced when it meets them all.
 */
module UserSchema {
  import opened Wrappers
  import opened JsString
  import opened NameTransform

  /** One file of the avatar `FileList`; only its name and size matter here. */
  datatype File = File(name: string, size: nat)

  /** A JavaScript number as `z.coerce.number()` produces it. */
  datatype Number = NaN | NegativeInfinity | PositiveInfinity | Finite(value: real)

  /** One entry of the `techs` list. */
  datatype Tech = Tech(title: string, knowledge: Number)

  /** The raw form values; `avatar` is `None` when the field is `undefined`. */
  datatype Candidate = Candidate(
    avatar: Option<seq<File>>,
    name: string,
    email: string,
    password: string,
    techs: seq<Tech>)

  /** The record handed to the submit handler once every rule holds. */
  datatype UserRecord = UserRecord(
    avatar: seq<File>,
    name: string,
    email: string,
    password: string,
    techs: seq<Tech>)

  /** Where an issue is reported: a field, or a field of the entry at an index of `techs`. */
  datatype Path =
    | AvatarField | NameField | EmailField | PasswordField | TechsField
    | TitleField(index: nat) | KnowledgeField(index: nat)

  datatype Rule =
    | AvatarInvalid
    | NameRequired
    | EmailRequired | EmailFormat | EmailNotGmail
    | PasswordTooShort
    | TechsTooFew
    | TitleRequired
    | KnowledgeNotANumber | KnowledgeTooSmall | KnowledgeTooLarge

  datatype Issue = Issue(path: Path, rule: Rule)

  /**
   * What validation comes to: the normalised record, the issues found, or
   * the TypeError the name transform throws, which aborts the whole parse.
   */
  datatype Outcome = Accepted(record: UserRecord) | Rejected(issues: set<Issue>) | Threw

  const MaxAvatarBytes: nat := 5 * 1024 * 1024
  const MinPasswordLength: nat := 6
  const GmailSuffix: string := "@gmail.com"

  /** The entry `addNewTech` appends. */
  const DefaultTech: Tech := Tech("", Finite(0.0))

  /** The message the schema attaches to a rule; the knowledge bounds and the number type keep the library's own. */
  function Message(rule: Rule): (m: Option<string>)
    ensures m.None? <==> rule in {KnowledgeNotANumber, KnowledgeTooSmall, KnowledgeTooLarge}
  {
    match rule
    case AvatarInvalid => Some("Por favor, selecione um arquivo de imagem com at\U{E9} 5MB")
    case NameRequired => Some("O nome \U{E9} obrigat\U{F3}rio")
    case EmailRequired => Some("O email \U{E9} obrigat\U{F3}rio")
    case EmailFormat => Some("Formato de email inv\U{E1}lido")
    case EmailNotGmail => Some("O email precisa ser do Gmail")
    case PasswordTooShort => Some("A senha precisa de no m\U{ED}nimo 6 caracteres")
    case TechsTooFew => Some("Insira pelo menos 2 tecnologias")
    case TitleRequired => Some("O t\U{ED}tulo \U{E9} obrigat\U{F3}rio")
    case KnowledgeNotANumber => None
    case KnowledgeTooSmall => None
    case KnowledgeTooLarge => None
  }

  // ---------------------------------------------------------------- the rules

  /** The avatar refine: a non-empty list whose first file is at most 5 MiB. */
  predicate AvatarAccepted(avatar: Option<seq<File>>)
  {
    avatar.Some? && |avatar.value| > 0 && avatar.value[0].size <= MaxAvatarBytes
  }

  /** `min(1)` on the raw name. */
  predicate NameAccepted(name: string)
  {
    Utf16Length(name) >= 1
  }

  /** `min(1)`, `.email()` on the raw string, and the suffix check on the lower-cased string. */
  predicate EmailAccepted(email: string, emailSyntax: string -> bool)
  {
    && Utf16Length(email) >= 1
    && emailSyntax(email)
    && EndsWith(ToLowerCase(email), GmailSuffix)
  }

  /** `min(6)` on the password. */
  predicate PasswordAccepted(password: string)
  {
    Utf16Length(password) >= MinPasswordLength
  }

  /** A number `min(1)` rejects. */
  predicate BelowMin(k: Number)
  {
    k.NegativeInfinity? || (k.Finite? && k.value < 1.0)
  }

  /** A number `max(100)` rejects. */
  predicate AboveMax(k: Number)
  {
    k.PositiveInfinity? || (k.Finite? && k.value > 100.0)
  }

  /** `z.number().min(1).max(100)`: NaN is not a number to Zod; the bounds are inclusive. */
  predicate KnowledgeAccepted(k: Number)
  {
    !k.NaN? && !BelowMin(k) && !AboveMax(k)
  }

  predicate TechAccepted(t: Tech)
  {
    Utf16Length(t.title) >= 1 && KnowledgeAccepted(t.knowledge)
  }

  /** `min(1)` on the list, and every entry accepted. */
  predicate TechsAccepted(techs: seq<Tech>)
  {
    |techs| >= 1 && forall k :: 0 <= k < |techs| ==> TechAccepted(techs[k])
  }

  predicate CandidateAccepted(c: Candidate, emailSyntax: string -> bool)
  {
    && AvatarAccepted(c.avatar)
    && NameAccepted(c.name)
    && EmailAccepted(c.email, emailSyntax)
    && PasswordAccepted(c.password)
    && TechsAccepted(c.techs)
  }

  // ---------------------------------------------------------------- the issues

  /** An issue names a rule of the field it is reported under. */
  predicate Fits(issue: Issue)
  {
    match issue.path
    case AvatarField => issue.rule == AvatarInvalid
    case NameField => issue.rule == NameRequired
    case EmailField => issue.rule == EmailRequired || issue.rule == EmailFormat || issue.rule == EmailNotGmail
    case PasswordField => issue.rule == PasswordTooShort
    case TechsField => issue.rule == TechsTooFew
    case TitleField(_) => issue.rule == TitleRequired
    case KnowledgeField(_) =>
      issue.rule == KnowledgeNotANumber || issue.rule == KnowledgeTooSmall || issue.rule == KnowledgeTooLarge
  }

  /** A path into an entry of `techs`. */
  predicate IsEntryPath(p: Path)
  {
    p.TitleField? || p.KnowledgeField?
  }

  function AvatarIssues(avatar: Option<seq<File>>): (r: set<Issue>)
    ensures r == {} <==> AvatarAccepted(avatar)
    ensures forall i :: i in r ==> i == Issue(AvatarField, AvatarInvalid)
    ensures Issue(AvatarField, AvatarInvalid) in r <==> !AvatarAccepted(avatar)
  {
    if AvatarAccepted(avatar) then {} else {Issue(AvatarField, AvatarInvalid)}
  }

  function NameIssues(name: string): (r: set<Issue>)
    ensures r == {} <==> NameAccepted(name)
    ensures forall i :: i in r ==> i == Issue(NameField, NameRequired)
    ensures Issue(NameField, NameRequired) in r <==> !NameAccepted(name)
  {
    if NameAccepted(name) then {} else {Issue(NameField, NameRequired)}
  }

  /** Every email check runs: the refine still sees a value the string checks failed. */
  function EmailIssues(email: string, emailSyntax: string -> bool): (r: set<Issue>)
    ensures r == {} <==> EmailAccepted(email, emailSyntax)
    ensures forall i :: i in r ==> i.path == EmailField && Fits(i)
    ensures Issue(EmailField, EmailRequired) in r <==> email == []
    ensures Issue(EmailField, EmailFormat) in r <==> !emailSyntax(email)
    ensures Issue(EmailField, EmailNotGmail) in r <==> !EndsWith(ToLowerCase(email), GmailSuffix)
  {
    (if Utf16Length(email) >= 1 then {} else {Issue(EmailField, EmailRequired)})
    + (if emailSyntax(email) then {} else {Issue(EmailField, EmailFormat)})
    + (if EndsWith(ToLowerCase(email), GmailSuffix) then {} else {Issue(EmailField, EmailNotGmail)})
  }

  function PasswordIssues(password: string): (r: set<Issue>)
    ensures r == {} <==> PasswordAccepted(password)
    ensures forall i :: i in r ==> i == Issue(PasswordField, PasswordTooShort)
    ensures Issue(PasswordField, PasswordTooShort) in r <==> !PasswordAccepted(password)
  {
    if PasswordAccepted(password) then {} else {Issue(PasswordField, PasswordTooShort)}
  }

  /** A value that is not a number stops at the type check; otherwise both bounds are checked. */
  function KnowledgeIssues(k: Number, index: nat): (r: set<Issue>)
    ensures r == {} <==> KnowledgeAccepted(k)
    ensures forall i :: i in r ==> i.path == KnowledgeField(index) && Fits(i)
    ensures Issue(KnowledgeField(index), KnowledgeNotANumber) in r <==> k.NaN?
    ensures Issue(KnowledgeField(index), KnowledgeTooSmall) in r <==> BelowMin(k)
    ensures Issue(KnowledgeField(index), KnowledgeTooLarge) in r <==> AboveMax(k)
  {
    if k.NaN? then {Issue(KnowledgeField(index), KnowledgeNotANumber)}
    else
      (if BelowMin(k) then {Issue(KnowledgeField(index), KnowledgeTooSmall)} else {})
      + (if AboveMax(k) then {Issue(KnowledgeField(index), KnowledgeTooLarge)} else {})
  }

  function TechIssues(t: Tech, index: nat): (r: set<Issue>)
    ensures r == {} <==> TechAccepted(t)
    ensures forall i :: i in r ==> (i.path == TitleField(index) || i.path == KnowledgeField(index)) && Fits(i)
    ensures Issue(TitleField(index), TitleRequired) in r <==> t.title == []
  {
    (if Utf16Length(t.title) >= 1 then {} else {Issue(TitleField(index), TitleRequired)})
    + KnowledgeIssues(t.knowledge, index)
  }

  /** The issues of the entries, each under its own index. */
  function EntriesIssues(techs: seq<Tech>): (r: set<Issue>)
    ensures r == {} <==> forall k :: 0 <= k < |techs| ==> TechAccepted(techs[k])
    ensures forall i :: i in r ==> IsEntryPath(i.path) && i.path.index < |techs| && Fits(i)
  {
    var r := set k, i | 0 <= k < |techs| && i in TechIssues(techs[k], k) :: i;
    assert r == {} ==> forall k :: 0 <= k < |techs| ==> TechAccepted(techs[k]) by {
      if k :| 0 <= k < |techs| && !TechAccepted(techs[k]) {
        var issues := TechIssues(techs[k], k);
        assert issues != {};
        var i :| i in issues;
        assert i in r;
      }
    }
    r
  }

  function TechsIssues(techs: seq<Tech>): (r: set<Issue>)
    ensures r == {} <==> TechsAccepted(techs)
    ensures forall i :: i in r ==> (i.path == TechsField || IsEntryPath(i.path)) && Fits(i)
    ensures Issue(TechsField, TechsTooFew) in r <==> techs == []
    ensures forall i: Issue :: IsEntryPath(i.path) ==> (i in r <==> i in EntriesIssues(techs))
  {
    (if |techs| >= 1 then {} else {Issue(TechsField, TechsTooFew)}) + EntriesIssues(techs)
  }

  /** Every issue of a candidate: the set of the rules it breaks, each under its path. */
  function Issues(c: Candidate, emailSyntax: string -> bool): (r: set<Issue>)
    ensures r == {} <==> CandidateAccepted(c, emailSyntax)
    ensures forall i :: i in r ==> Fits(i)
  {
    AvatarIssues(c.avatar) + NameIssues(c.name) + EmailIssues(c.email, emailSyntax)
    + PasswordIssues(c.password) + TechsIssues(c.techs)
  }

  // ---------------------------------------------------------------- validation

  /**
   * Parsing a candidate with the schema. The name transform runs whenever
   * the name passes `min(1)`, whatever the other fields hold, and throws
   * when a word is empty; otherwise the record is accepted exactly when no
   * rule is broken, and is then normalised.
   */
  function Validate(c: Candidate, emailSyntax: string -> bool): (r: Outcome)
    ensures r.Threw? <==> NameAccepted(c.name) && NormalizeName(c.name).None?
    ensures r.Accepted? <==> CandidateAccepted(c, emailSyntax) && NormalizeName(c.name).Some?
    ensures r.Rejected? ==> r.issues != {} && r.issues == Issues(c, emailSyntax)
    ensures r.Accepted? ==> r.record == UserRecord(
      c.avatar.value, NormalizeName(c.name).value, ToLowerCase(c.email), c.password, c.techs)
  {
    var name := NormalizeName(c.name);
    if NameAccepted(c.name) && name.None? then Threw
    else
      var issues := Issues(c, emailSyntax);
      if issues == {} then
        Accepted(UserRecord(c.avatar.value, name.value, ToLowerCase(c.email), c.password, c.techs))
      else
        Rejected(issues)
  }

  /** `addNewTech`: the list with the default entry appended. */
  function AddNewTech(techs: seq<Tech>): (r: seq<Tech>)
    ensures |r| == |techs| + 1 && r[..|techs|] == techs && r[|techs|] == DefaultTech
  {
    techs + [DefaultTech]
  }

  // ---------------------------------------------------------------- properties

  /** 5 MiB is 5,242,880 bytes. Only the first file counts, and a file of exactly 5 MiB passes. */
  lemma AvatarRule(first: File, rest: seq<File>)
    ensures MaxAvatarBytes == 5_242_880
    ensures !AvatarAccepted(None) && !AvatarAccepted(Some([]))
    ensures AvatarAccepted(Some([first] + rest)) <==> first.size <= 5_242_880
    ensures AvatarAccepted(Some([File(first.name, 5_242_880)] + rest))
    ensures !AvatarAccepted(Some([File(first.name, 5_242_881)] + rest))
  {
  }

  /** A password passes exactly when it has at least 6 UTF-16 code units: 6 characters always do, 2 never do. */
  lemma PasswordRule(password: string)
    ensures PasswordAccepted(password) <==> Utf16Length(password) >= 6
    ensures |password| >= 6 ==> PasswordAccepted(password)
    ensures |password| <= 2 ==> !PasswordAccepted(password)
  {
  }

  /** "abc12" is too short; "abc123" is long enough. */
  lemma PasswordExamples()
    ensures !PasswordAccepted("abc12")
    ensures PasswordAccepted("abc123")
  {
    Utf16LengthBasic("abc12");
    Utf16LengthBasic("abc123");
  }

  /** Knowledge passes exactly for finite values from 1 to 100, both included; fractions are not refused. */
  lemma KnowledgeRange(k: Number)
    ensures KnowledgeAccepted(k) <==> k.Finite? && 1.0 <= k.value <= 100.0
    ensures KnowledgeIssues(k, 0) == {} <==> KnowledgeAccepted(k)
  {
  }

  /** The list passes exactly when it is non-empty and every entry has a title and a knowledge value from 1 to 100. */
  lemma TechsRule(techs: seq<Tech>)
    ensures TechsAccepted(techs) <==>
              && |techs| >= 1
              && forall k :: 0 <= k < |techs| ==>
                   techs[k].title != [] && techs[k].knowledge.Finite? && 1.0 <= techs[k].knowledge.value <= 100.0
  {
    forall k | 0 <= k < |techs| {
      KnowledgeRange(techs[k].knowledge);
    }
  }

  /** The bounds 1 and 100 pass, 0 and 101 do not, and neither does NaN; 50.5 passes. */
  lemma KnowledgeExamples()
    ensures KnowledgeAccepted(Finite(1.0)) && KnowledgeAccepted(Finite(100.0))
    ensures !KnowledgeAccepted(Finite(0.0)) && !KnowledgeAccepted(Finite(101.0))
    ensures !KnowledgeAccepted(NaN) && KnowledgeAccepted(Finite(50.5))
  {
  }

  /** An empty email is refused, whatever the syntax check says. */
  lemma EmptyEmailRejected(emailSyntax: string -> bool)
    ensures !EmailAccepted("", emailSyntax)
    ensures Issue(EmailField, EmailRequired) in EmailIssues("", emailSyntax)
  {
  }

  /** The email rules depend on the letter case of the input only through the syntax check. */
  lemma {:induction false} EmailCaseInsensitive(a: string, b: string, emailSyntax: string -> bool)
    requires ToLowerCase(a) == ToLowerCase(b)
    requires emailSyntax(a) == emailSyntax(b)
    ensures EmailAccepted(a, emailSyntax) <==> EmailAccepted(b, emailSyntax)
    ensures EmailIssues(a, emailSyntax) == EmailIssues(b, emailSyntax)
  {
    assert |a| == |ToLowerCase(a)| == |b|;
    assert Utf16Length(a) >= 1 <==> Utf16Length(b) >= 1;
  }

  /**
   * Validation gives the same outcome for two emails that lower-case to the
   * same string (and that the syntax check treats alike): acceptance does
   * not depend on letter case, and neither does the normalised email.
   */
  lemma ValidateEmailCaseInsensitive(c: Candidate, a: string, b: string, emailSyntax: string -> bool)
    requires ToLowerCase(a) == ToLowerCase(b)
    requires emailSyntax(a) == emailSyntax(b)
    ensures Validate(c.(email := a), emailSyntax) == Validate(c.(email := b), emailSyntax)
  {
    EmailCaseInsensitive(a, b, emailSyntax);
    assert Issues(c.(email := a), emailSyntax) == Issues(c.(email := b), emailSyntax);
  }

  /** Each issue of an entry is reported under that entry's own index, and no other issue is. */
  lemma EntriesIssuesAt(techs: seq<Tech>, issue: Issue)
    requires IsEntryPath(issue.path)
    ensures issue in EntriesIssues(techs) <==>
              issue.path.index < |techs| && issue in TechIssues(techs[issue.path.index], issue.path.index)
  {
  }

  // An issue is reported exactly when the check of its own field reports it.

  lemma IssueOfAvatar(c: Candidate, emailSyntax: string -> bool, issue: Issue)
    requires issue.path == AvatarField
    ensures issue in Issues(c, emailSyntax) <==> issue in AvatarIssues(c.avatar)
  {
    assert issue in Issues(c, emailSyntax) <==>
      issue in AvatarIssues(c.avatar) || issue in NameIssues(c.name) || issue in EmailIssues(c.email, emailSyntax)
      || issue in PasswordIssues(c.password) || issue in TechsIssues(c.techs);
    assert issue !in NameIssues(c.name) && issue !in EmailIssues(c.email, emailSyntax) && issue !in PasswordIssues(c.password) && issue !in TechsIssues(c.techs);
  }

  lemma IssueOfName(c: Candidate, emailSyntax: string -> bool, issue: Issue)
    requires issue.path == NameField
    ensures issue in Issues(c, emailSyntax) <==> issue in NameIssues(c.name)
  {
    assert issue in Issues(c, emailSyntax) <==>
      issue in AvatarIssues(c.avatar) || issue in NameIssues(c.name) || issue in EmailIssues(c.email, emailSyntax)
      || issue in PasswordIssues(c.password) || issue in TechsIssues(c.techs);
    assert issue !in AvatarIssues(c.avatar) && issue !in EmailIssues(c.email, emailSyntax) && issue !in PasswordIssues(c.password) && issue !in TechsIssues(c.techs);
  }

  lemma IssueOfEmail(c: Candidate, emailSyntax: string -> bool, issue: Issue)
    requires issue.path == EmailField
    ensures issue in Issues(c, emailSyntax) <==> issue in EmailIssues(c.email, emailSyntax)
  {
    assert issue in Issues(c, emailSyntax) <==>
      issue in AvatarIssues(c.avatar) || issue in NameIssues(c.name) || issue in EmailIssues(c.email, emailSyntax)
      || issue in PasswordIssues(c.password) || issue in TechsIssues(c.techs);
    assert issue !in AvatarIssues(c.avatar) && issue !in NameIssues(c.name) && issue !in PasswordIssues(c.password) && issue !in TechsIssues(c.techs);
  }

  lemma IssueOfPassword(c: Candidate, emailSyntax: string -> bool, issue: Issue)
    requires issue.path == PasswordField
    ensures issue in Issues(c, emailSyntax) <==> issue in PasswordIssues(c.password)
  {
    assert issue in Issues(c, emailSyntax) <==>
      issue in AvatarIssues(c.avatar) || issue in NameIssues(c.name) || issue in EmailIssues(c.email, emailSyntax)
      || issue in PasswordIssues(c.password) || issue in TechsIssues(c.techs);
    assert issue !in AvatarIssues(c.avatar) && issue !in NameIssues(c.name) && issue !in EmailIssues(c.email, emailSyntax) && issue !in TechsIssues(c.techs);
  }

  lemma IssueOfTechs(c: Candidate, emailSyntax: string -> bool, issue: Issue)
    requires issue.path == TechsField || IsEntryPath(issue.path)
    ensures issue in Issues(c, emailSyntax) <==> issue in TechsIssues(c.techs)
  {
    assert issue in Issues(c, emailSyntax) <==>
      issue in AvatarIssues(c.avatar) || issue in NameIssues(c.name) || issue in EmailIssues(c.email, emailSyntax)
      || issue in PasswordIssues(c.password) || issue in TechsIssues(c.techs);
    assert issue !in AvatarIssues(c.avatar) && issue !in NameIssues(c.name) && issue !in EmailIssues(c.email, emailSyntax) && issue !in PasswordIssues(c.password);
  }

  /** The issues reported for the fields other than the entries: exactly those of the rules broken. */
  lemma IssuesOfFields(c: Candidate, emailSyntax: string -> bool)
    ensures var issues := Issues(c, emailSyntax);
      && (Issue(AvatarField, AvatarInvalid) in issues <==> !AvatarAccepted(c.avatar))
      && (Issue(NameField, NameRequired) in issues <==> !NameAccepted(c.name))
      && (Issue(EmailField, EmailRequired) in issues <==> c.email == [])
      && (Issue(EmailField, EmailFormat) in issues <==> !emailSyntax(c.email))
      && (Issue(EmailField, EmailNotGmail) in issues <==> !EndsWith(ToLowerCase(c.email), GmailSuffix))
      && (Issue(PasswordField, PasswordTooShort) in issues <==> !PasswordAccepted(c.password))
      && (Issue(TechsField, TechsTooFew) in issues <==> c.techs == [])
  {
    IssueOfAvatar(c, emailSyntax, Issue(AvatarField, AvatarInvalid));
    IssueOfName(c, emailSyntax, Issue(NameField, NameRequired));
    IssueOfEmail(c, emailSyntax, Issue(EmailField, EmailRequired));
    IssueOfEmail(c, emailSyntax, Issue(EmailField, EmailFormat));
    IssueOfEmail(c, emailSyntax, Issue(EmailField, EmailNotGmail));
    IssueOfPassword(c, emailSyntax, Issue(PasswordField, PasswordTooShort));
    IssueOfTechs(c, emailSyntax, Issue(TechsField, TechsTooFew));
  }

  /** The issues reported for the entry at index `j`: exactly those of the entry rules it breaks. */
  lemma IssuesOfEntry(c: Candidate, emailSyntax: string -> bool, issue: Issue)
    requires IsEntryPath(issue.path)
    ensures issue in Issues(c, emailSyntax) <==>
              issue.path.index < |c.techs| && issue in TechIssues(c.techs[issue.path.index], issue.path.index)
  {
    EntriesIssuesAt(c.techs, issue);
    IssueOfTechs(c, emailSyntax, issue);
  }

  /**
   * The entry issues a rejected candidate reports at index `j`: a missing
   * title, and a knowledge value that is not a number, below 1 or above 100.
   */
  lemma RejectedReportsEntry(c: Candidate, emailSyntax: string -> bool, j: nat)
    requires Validate(c, emailSyntax).Rejected?
    ensures var issues := Validate(c, emailSyntax).issues;
      && (Issue(TitleField(j), TitleRequired) in issues <==> j < |c.techs| && c.techs[j].title == [])
      && (Issue(KnowledgeField(j), KnowledgeNotANumber) in issues <==> j < |c.techs| && c.techs[j].knowledge.NaN?)
      && (Issue(KnowledgeField(j), KnowledgeTooSmall) in issues <==> j < |c.techs| && BelowMin(c.techs[j].knowledge))
      && (Issue(KnowledgeField(j), KnowledgeTooLarge) in issues <==> j < |c.techs| && AboveMax(c.techs[j].knowledge))
  {
    assert Validate(c, emailSyntax).issues == Issues(c, emailSyntax);
    IssuesOfEntry(c, emailSyntax, Issue(TitleField(j), TitleRequired));
    IssuesOfEntry(c, emailSyntax, Issue(KnowledgeField(j), KnowledgeNotANumber));
    IssuesOfEntry(c, emailSyntax, Issue(KnowledgeField(j), KnowledgeTooSmall));
    IssuesOfEntry(c, emailSyntax, Issue(KnowledgeField(j), KnowledgeTooLarge));
  }

  /**
   * What an accepted record satisfies: a first avatar file of at most 5 MiB,
   * a name the transform leaves as it is, a lower-case Gmail address, the
   * password as typed and of at least 6 code units, and a non-empty list of
   * titled entries with knowledge from 1 to 100.
   */
  lemma AcceptedRecord(c: Candidate, emailSyntax: string -> bool, rec: UserRecord)
    requires Validate(c, emailSyntax) == Accepted(rec)
    ensures |rec.avatar| > 0 && rec.avatar[0].size <= MaxAvatarBytes
    ensures NormalizeName(rec.name) == Some(rec.name)
    ensures EndsWith(rec.email, GmailSuffix)
    ensures forall k :: 0 <= k < |rec.email| ==> !IsUpperCase(rec.email[k])
    ensures rec.password == c.password && Utf16Length(rec.password) >= 6
    ensures |rec.techs| >= 1
    ensures forall k :: 0 <= k < |rec.techs| ==>
              rec.techs[k].title != [] && rec.techs[k].knowledge.Finite?
              && 1.0 <= rec.techs[k].knowledge.value <= 100.0
  {
    assert CandidateAccepted(c, emailSyntax);
    assert rec == UserRecord(c.avatar.value, NormalizeName(c.name).value, ToLowerCase(c.email), c.password, c.techs);
    NormalizeNameIdempotent(c.name);
    TechsRule(c.techs);
  }

  /** The entry `addNewTech` appends has an empty title and knowledge 0: it breaks both entry rules. */
  lemma DefaultTechRejected(index: nat)
    ensures !TechAccepted(DefaultTech)
    ensures TechIssues(DefaultTech, index)
         == {Issue(TitleField(index), TitleRequired), Issue(KnowledgeField(index), KnowledgeTooSmall)}
  {
  }

  /**
   * Right after `addNewTech`, the form cannot be submitted: unless the name
   * transform throws first, both issues of the new entry are reported under
   * its index.
   */
  lemma AddNewTechBlocksSubmit(c: Candidate, emailSyntax: string -> bool)
    ensures var d := c.(techs := AddNewTech(c.techs));
      && !Validate(d, emailSyntax).Accepted?
      && (Validate(d, emailSyntax).Rejected? ==>
            && Issue(TitleField(|c.techs|), TitleRequired) in Validate(d, emailSyntax).issues
            && Issue(KnowledgeField(|c.techs|), KnowledgeTooSmall) in Validate(d, emailSyntax).issues)
  {
    var d := c.(techs := AddNewTech(c.techs));
    assert d.techs[|c.techs|] == DefaultTech;
    assert !TechAccepted(d.techs[|c.techs|]);
    if Validate(d, emailSyntax).Rejected? {
      assert Validate(d, emailSyntax).issues == Issues(d, emailSyntax);
      IssuesOfEntry(d, emailSyntax, Issue(TitleField(|c.techs|), TitleRequired));
      IssuesOfEntry(d, emailSyntax, Issue(KnowledgeField(|c.techs|), KnowledgeTooSmall));
      DefaultTechRejected(|c.techs|);
    }
  }
}

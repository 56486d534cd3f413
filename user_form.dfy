/** The customer form: the per-field rule table, the age rule, the edit handlers that keep
    the draft and its error map, and the submission gate. */
module UserForm {
  import opened Wrappers
  import opened Chars
  import opened Regex
  import opened Dates
  import opened UserModel

  // ---------------------------------------------------------------------------------
  // The rule table's patterns, written as the regular expressions they are.

  /** [a-zA-ZáéíóúÁÉÍÓÚñÑ\s] */
  const NameClass: CharClass :=
    CharClass([Range('a', 'z'), Range('A', 'Z'), OneOf("áéíóúÁÉÍÓÚñÑ"), SpaceEscape], false)
  /** \d */
  const Digit: CharClass := CharClass([DigitEscape], false)
  /** [^\s@] */
  const NotSpaceOrAt: CharClass := CharClass([SpaceEscape, OneOf("@")], true)
  const AtSign: CharClass := CharClass([OneOf("@")], false)
  /** \. */
  const Dot: CharClass := CharClass([OneOf(".")], false)

  /** ^[a-zA-ZáéíóúÁÉÍÓÚñÑ\s]{2,50}$ */
  const NamePattern: seq<Piece> := [Piece(NameClass, 2, AtMost(50))]
  /** ^\d{9}$ */
  const PhonePattern: seq<Piece> := [Piece(Digit, 9, AtMost(9))]
  /** ^\d{8}$ */
  const DniPattern: seq<Piece> := [Piece(Digit, 8, AtMost(8))]
  /** [^\s@]+ */
  const PlainRunPiece: Piece := Piece(NotSpaceOrAt, 1, Unbounded)
  const AtPiece: Piece := Piece(AtSign, 1, AtMost(1))
  const DotPiece: Piece := Piece(Dot, 1, AtMost(1))
  /** ^[^\s@]+@[^\s@]+\.[^\s@]+$ */
  const EmailPattern: seq<Piece> := [PlainRunPiece, AtPiece, PlainRunPiece, DotPiece, PlainRunPiece]
  /** @[^\s@]+\.[^\s@]+$, the part of the email pattern from the @ on */
  const AtDomainPattern: seq<Piece> := [AtPiece, PlainRunPiece, DotPiece, PlainRunPiece]
  /** [^\s@]+\.[^\s@]+$, the part after the @ */
  const DomainPattern: seq<Piece> := [PlainRunPiece, DotPiece, PlainRunPiece]

  const NameMessage := "Debe contener solo letras y tener entre 2 y 50 caracteres."
  const PhoneMessage := "Debe tener exactamente 9 dígitos."
  const EmailMessage := "Debe ser un correo electrónico válido."
  const CityMessage := "La ciudad no puede estar vacía."
  const DniMessage := "Debe tener exactamente 8 dígitos."
  const BirthDateMessage := "Debes ser mayor de 18 años."
  const GenderMessage := "El género es obligatorio."

  /** The message the rule table reports for a field, "" for a field it has no rule for. */
  function MessageFor(field: string): (m: string)
    ensures m != "" <==> field in TextFields
  {
    if field == "first_name" || field == "last_name" then NameMessage
    else if field == "phone" then PhoneMessage
    else if field == "email" then EmailMessage
    else if field == "city" then CityMessage
    else if field == "dni" then DniMessage
    else if field == "birth_date" then BirthDateMessage
    else if field == "gender" then GenderMessage
    else ""
  }

  // ---------------------------------------------------------------------------------
  // Age and validation.

  /** calculateAge: whole years from birth to today. The result is the number of birthdays
      reached: the anniversary of that many years is on or before today, the next is not. */
  function CalculateAge(birth: Date, today: Date): (age: int)
    ensures OnOrBefore(Anniversary(birth, age), today)
    ensures !OnOrBefore(Anniversary(birth, age + 1), today)
  {
    var age := today.year - birth.year;
    var monthDiff := today.month - birth.month;
    if monthDiff < 0 || (monthDiff == 0 && today.day < birth.day) then age - 1 else age
  }

  /** validateField: "" when the value passes the field's rule, else the field's message.
      Fields with no rule (ID, age, deleted, anything else) always pass. At run time every
      ruled field holds a string: JSON text from the API, and for birth_date also the ISO
      text the date picker stores, although User.ts types birth_date as a Date. */
  function ValidateField(field: string, value: Value, today: Date): (r: string)
    requires field in TextFields ==> value.Text?
    ensures r == "" || r == MessageFor(field)
    ensures field !in TextFields ==> r == ""
  {
    if field == "first_name" || field == "last_name" then
      if FullMatch(NamePattern, value.s) then "" else NameMessage
    else if field == "phone" then
      if FullMatch(PhonePattern, value.s) then "" else PhoneMessage
    else if field == "email" then
      if FullMatch(EmailPattern, value.s) then "" else EmailMessage
    else if field == "city" then
      if Trim(value.s) == "" then CityMessage else ""
    else if field == "dni" then
      if FullMatch(DniPattern, value.s) then "" else DniMessage
    else if field == "birth_date" then
      // An Invalid Date gives an age of NaN, and NaN < 18 is false.
      match ParseIsoDate(value.s)
      case None => ""
      case Some(birth) => if CalculateAge(birth, today) < 18 then BirthDateMessage else ""
    else if field == "gender" then
      if value.s == "" then GenderMessage else ""
    else ""
  }

  // ---------------------------------------------------------------------------------
  // What each rule accepts, in plain words.

  predicate IsAsciiLetter(c: char)
  {
    'a' <= c <= 'z' || 'A' <= c <= 'Z'
  }

  /** A letter of a Spanish name: ASCII, an acute-accented vowel, ñ or Ñ; or whitespace. */
  predicate IsNameChar(c: char)
  {
    IsAsciiLetter(c) || c in "áéíóúÁÉÍÓÚñÑ" || IsSpace(c)
  }

  /** An address with one @, nothing blank, something before the @, and after it a dot
      that is neither the first nor the last character of the domain. */
  predicate IsEmailShape(s: string)
  {
    && (forall i | 0 <= i < |s| :: !IsSpace(s[i]))
    && exists at | 0 < at < |s| ::
         && s[at] == '@'
         && (forall j | 0 <= j < |s| && j != at :: s[j] != '@')
         && exists dot | at + 1 < dot < |s| - 1 :: s[dot] == '.'
  }

  lemma NameClassMeaning(c: char)
    ensures InClass(c, NameClass) <==> IsNameChar(c)
  {
    var items := NameClass.items;
    if IsNameChar(c) {
      if 'a' <= c <= 'z' {
        assert InItem(c, items[0]);
      } else if 'A' <= c <= 'Z' {
        assert InItem(c, items[1]);
      } else if c in "áéíóúÁÉÍÓÚñÑ" {
        assert InItem(c, items[2]);
      } else {
        assert InItem(c, items[3]);
      }
    }
  }

  lemma NotSpaceOrAtMeaning(c: char)
    ensures InClass(c, NotSpaceOrAt) <==> !IsSpace(c) && c != '@'
  {
    var items := NotSpaceOrAt.items;
    if IsSpace(c) {
      assert InItem(c, items[0]);
    } else if c == '@' {
      assert InItem(c, items[1]);
    }
  }

  lemma AtSignMeaning(c: char)
    ensures InClass(c, AtSign) <==> c == '@'
  {
    if c == '@' {
      assert InItem(c, AtSign.items[0]);
    }
  }

  lemma DotMeaning(c: char)
    ensures InClass(c, Dot) <==> c == '.'
  {
    if c == '.' {
      assert InItem(c, Dot.items[0]);
    }
  }

  lemma DigitMeaning(c: char)
    ensures InClass(c, Digit) <==> IsDigit(c)
  {
    if IsDigit(c) {
      assert InItem(c, Digit.items[0]);
    }
  }

  /** first_name and last_name pass exactly when 2 to 50 characters long and made only of
      name characters. */
  lemma NameRule(field: string, v: string, today: Date)
    requires field == "first_name" || field == "last_name"
    ensures ValidateField(field, Text(v), today) == ""
        <==> 2 <= |v| <= 50 && forall i | 0 <= i < |v| :: IsNameChar(v[i])
  {
    SinglePieceMatch(NamePattern[0], v);
    forall i | 0 <= i < |v| {
      NameClassMeaning(v[i]);
    }
  }

  /** Exactly n digits, the shape of ^\d{n}$. */
  lemma DigitsRule(p: seq<Piece>, n: nat, v: string)
    requires p == [Piece(Digit, n, AtMost(n))]
    ensures FullMatch(p, v) <==> |v| == n && AllDigits(v)
  {
    SinglePieceMatch(p[0], v);
    forall i | 0 <= i < |v| {
      DigitMeaning(v[i]);
    }
  }

  /** phone passes exactly when it is nine ASCII digits. */
  lemma PhoneRule(v: string, today: Date)
    ensures ValidateField("phone", Text(v), today) == "" <==> |v| == 9 && AllDigits(v)
  {
    DigitsRule(PhonePattern, 9, v);
  }

  /** dni passes exactly when it is eight ASCII digits. */
  lemma DniRule(v: string, today: Date)
    ensures ValidateField("dni", Text(v), today) == "" <==> |v| == 8 && AllDigits(v)
  {
    DigitsRule(DniPattern, 8, v);
  }

  /** The email pattern's suffixes, piece by piece. */
  lemma EmailPieces()
    ensures EmailPattern[0] == PlainRunPiece && EmailPattern[1..] == AtDomainPattern
  {
  }

  /** No whitespace and no @: the characters [^\s@] admits. */
  predicate Plain(s: string)
  {
    forall i | 0 <= i < |s| :: !IsSpace(s[i]) && s[i] != '@'
  }

  /** The part after the @: plain, with a dot neither first nor last. */
  predicate IsDomainShape(d: string)
  {
    Plain(d) && exists k | 0 < k < |d| - 1 :: d[k] == '.'
  }

  lemma PlainRun(s: string)
    ensures AllIn(s, NotSpaceOrAt) <==> Plain(s)
  {
    forall i | 0 <= i < |s| {
      NotSpaceOrAtMeaning(s[i]);
    }
  }

  lemma PlainSplit(s: string, k: int)
    requires 0 <= k <= |s|
    ensures Plain(s) <==> Plain(s[..k]) && Plain(s[k..])
  {
    if Plain(s[..k]) && Plain(s[k..]) {
      forall i | 0 <= i < |s| ensures !IsSpace(s[i]) && s[i] != '@' {
        if i < k { assert s[i] == s[..k][i]; } else { assert s[i] == s[k..][i - k]; }
      }
    }
  }

  /** [^\s@]+$ */
  lemma EmailTail(s: string)
    ensures FullMatch([PlainRunPiece], s) <==> |s| >= 1 && Plain(s)
  {
    SinglePieceMatch(PlainRunPiece, s);
    PlainRun(s);
  }

  /** \.[^\s@]+$ */
  lemma EmailDotTail(s: string)
    ensures FullMatch([DotPiece, PlainRunPiece], s) <==> |s| >= 2 && s[0] == '.' && Plain(s[1..])
  {
    var p := [DotPiece, PlainRunPiece];
    SingleCharHead(p, s);
    assert p[1..] == [PlainRunPiece];
    if |s| >= 1 {
      DotMeaning(s[0]);
      EmailTail(s[1..]);
    }
  }

  /** A plain run, a dot, and a plain run make a domain. */
  lemma DomainFromParts(s: string, n: int)
    requires 0 < n < |s| - 1 && s[n] == '.'
    requires Plain(s[..n]) && Plain(s[n + 1..])
    ensures IsDomainShape(s)
  {
    forall i | 0 <= i < |s| ensures !IsSpace(s[i]) && s[i] != '@' {
      if i < n {
        assert s[i] == s[..n][i];
      } else if i > n {
        assert s[i] == s[n + 1..][i - n - 1];
      }
    }
  }

  lemma EmailDomainHasShape(s: string)
    requires FullMatch(DomainPattern, s)
    ensures IsDomainShape(s)
  {
    var p := DomainPattern;
    assert p[0] == PlainRunPiece && p[1..] == [DotPiece, PlainRunPiece];
    var n := Uncons(p, s);
    PlainRun(s[..n]);
    var rest := s[n..];
    EmailDotTail(rest);
    assert rest[1..] == s[n + 1..] && rest[0] == s[n];
    DomainFromParts(s, n);
  }

  lemma EmailDomainShapeMatches(s: string)
    requires IsDomainShape(s)
    ensures FullMatch(DomainPattern, s)
  {
    var p := DomainPattern;
    assert p[1..] == [DotPiece, PlainRunPiece];
    var k :| 0 < k < |s| - 1 && s[k] == '.';
    PlainSplit(s, k);
    PlainRun(s[..k]);
    assert s[k..][1..] == s[k + 1..];
    PlainSplit(s[k..], 1);
    EmailDotTail(s[k..]);
    MatchCons(p, s, k);
  }

  /** [^\s@]+\.[^\s@]+$ */
  lemma EmailDomain(s: string)
    ensures FullMatch(DomainPattern, s) <==> IsDomainShape(s)
  {
    if FullMatch(DomainPattern, s) {
      EmailDomainHasShape(s);
    }
    if IsDomainShape(s) {
      EmailDomainShapeMatches(s);
    }
  }

  /** @[^\s@]+\.[^\s@]+$ */
  lemma EmailAtDomain(s: string)
    ensures FullMatch(AtDomainPattern, s)
        <==> |s| >= 1 && s[0] == '@' && IsDomainShape(s[1..])
  {
    var p := AtDomainPattern;
    SingleCharHead(p, s);
    assert p[1..] == DomainPattern;
    if |s| >= 1 {
      AtSignMeaning(s[0]);
      EmailDomain(s[1..]);
    }
  }

  /** A plain run, an @, and a domain make an address. */
  lemma EmailFromParts(s: string, at: int)
    requires 0 < at < |s| && s[at] == '@'
    requires Plain(s[..at]) && IsDomainShape(s[at + 1..])
    ensures IsEmailShape(s)
  {
    var d := s[at + 1..];
    var k :| 0 < k < |d| - 1 && d[k] == '.';
    var dot := at + 1 + k;
    assert s[dot] == '.';
    forall j | 0 <= j < |s| ensures !IsSpace(s[j]) && (j != at ==> s[j] != '@') {
      if j < at {
        assert s[j] == s[..at][j];
      } else if j > at {
        assert s[j] == d[j - at - 1];
      }
    }
    assert at + 1 < dot < |s| - 1;
  }

  lemma EmailMatchHasShape(s: string)
    requires FullMatch(EmailPattern, s)
    ensures IsEmailShape(s)
  {
    var p := EmailPattern;
    EmailPieces();
    var at := Uncons(p, s);
    PlainRun(s[..at]);
    var rest := s[at..];
    EmailAtDomain(rest);
    assert rest[1..] == s[at + 1..] && rest[0] == s[at];
    EmailFromParts(s, at);
  }

  lemma EmailShapeMatches(s: string)
    requires IsEmailShape(s)
    ensures FullMatch(EmailPattern, s)
  {
    var p := EmailPattern;
    EmailPieces();
    var at :| 0 < at < |s| && s[at] == '@'
      && (forall j | 0 <= j < |s| && j != at :: s[j] != '@')
      && exists dot | at + 1 < dot < |s| - 1 :: s[dot] == '.';
    var dot :| at + 1 < dot < |s| - 1 && s[dot] == '.';
    var d := s[at + 1..];
    assert d[dot - at - 1] == '.';
    assert Plain(d) by {
      forall i | 0 <= i < |d| ensures !IsSpace(d[i]) && d[i] != '@' {
        assert d[i] == s[at + 1 + i];
      }
    }
    assert Plain(s[..at]) by {
      forall i | 0 <= i < at ensures !IsSpace(s[..at][i]) && s[..at][i] != '@' {
        assert s[..at][i] == s[i];
      }
    }
    PlainRun(s[..at]);
    assert s[at..][1..] == d && s[at..][0] == '@';
    EmailAtDomain(s[at..]);
    MatchCons(p, s, at);
  }

  /** The email pattern matches exactly the strings of address shape. */
  lemma EmailPatternMeaning(s: string)
    ensures FullMatch(EmailPattern, s) <==> IsEmailShape(s)
  {
    if FullMatch(EmailPattern, s) {
      EmailMatchHasShape(s);
    }
    if IsEmailShape(s) {
      EmailShapeMatches(s);
    }
  }

  /** email passes exactly when the value has the shape of an address. */
  lemma EmailRule(v: string, today: Date)
    ensures ValidateField("email", Text(v), today) == "" <==> IsEmailShape(v)
  {
    EmailPatternMeaning(v);
  }

  /** city fails exactly when it is empty or only whitespace. */
  lemma CityRule(v: string, today: Date)
    ensures ValidateField("city", Text(v), today) != "" <==> AllSpace(v)
  {
    TrimEmptyIffAllSpace(v);
  }

  /** gender fails exactly when it is the empty string. */
  lemma GenderRule(v: string, today: Date)
    ensures ValidateField("gender", Text(v), today) != "" <==> v == ""
  {
  }

  /** A birth date that parses fails exactly when the person is under 18, that is, when
      the 18th birthday is still to come. */
  lemma BirthDateRule(v: string, birth: Date, today: Date)
    requires ParseIsoDate(v) == Some(birth)
    ensures ValidateField("birth_date", Text(v), today) == "" <==> CalculateAge(birth, today) >= 18
    ensures ValidateField("birth_date", Text(v), today) == "" <==> OnOrBefore(Anniversary(birth, 18), today)
  {
    AgeCountsBirthdays(birth, today, 18);
  }

  /** A birth date that does not parse passes: its age is NaN and NaN < 18 is false. */
  lemma UnparseableBirthDatePasses(v: string, today: Date)
    requires ParseIsoDate(v).None?
    ensures ValidateField("birth_date", Text(v), today) == ""
  {
  }

  /** The examples of the dni rule: eight digits pass; seven, nine, or a letter fail. */
  lemma DniExamples(today: Date)
    ensures ValidateField("dni", Text("12345678"), today) == ""
    ensures ValidateField("dni", Text("1234567"), today) != ""
    ensures ValidateField("dni", Text("123456789"), today) != ""
    ensures ValidateField("dni", Text("1234567a"), today) != ""
  {
    DniRule("12345678", today);
    DniRule("1234567", today);
    DniRule("123456789", today);
    DniRule("1234567a", today);
    assert !IsDigit("1234567a"[7]);
  }

  /** The examples of the email rule: a@b.co passes, a@b and a.b@ fail. */
  lemma EmailExamples(today: Date)
    ensures ValidateField("email", Text("a@b.co"), today) == ""
    ensures ValidateField("email", Text("a@b"), today) != ""
    ensures ValidateField("email", Text("a.b@"), today) != ""
  {
    EmailExampleShapes();
    EmailRule("a@b.co", today);
    EmailRule("a@b", today);
    EmailRule("a.b@", today);
  }

  lemma EmailExampleShapes()
    ensures IsEmailShape("a@b.co")
    ensures !IsEmailShape("a@b")
    ensures !IsEmailShape("a.b@")
  {
    var s := "a@b.co";
    assert s[1] == '@' && s[3] == '.';
    assert 1 + 1 < 3 < |s| - 1;
    var t := "a.b@";
    assert t[1] != '@' && t[2] != '@';
  }

  // ---------------------------------------------------------------------------------
  // The age rule.

  /** The age is the number of birthdays reached: the n-th has come exactly when n is at
      most the age. */
  lemma AgeCountsBirthdays(birth: Date, today: Date, n: int)
    ensures OnOrBefore(Anniversary(birth, n), today) <==> n <= CalculateAge(birth, today)
  {
  }

  /** The year difference, one less while this year's birthday is still to come. */
  lemma AgeRule(birth: Date, today: Date)
    ensures CalculateAge(birth, today)
         == today.year - birth.year - (if MonthDayBefore(today, birth) then 1 else 0)
  {
  }

  /** On the birthday itself the full year counts: born on today's month and day n years
      ago means age n. */
  lemma AgeOnBirthday(birth: Date, today: Date)
    requires birth.month == today.month && birth.day == today.day
    ensures CalculateAge(birth, today) == today.year - birth.year
  {
  }

  /** The day before the n-th birthday the age is still n - 1, also when that day ends a
      month or the year. */
  lemma AgeOnEveOfBirthday(birth: Date, today: Date, n: int)
    requires IsIsoDate(today) && Anniversary(birth, n) == NextDay(today)
    ensures CalculateAge(birth, today) == n - 1
  {
  }

  /** Age never decreases as time goes on. */
  lemma AgeMonotone(birth: Date, earlier: Date, later: Date)
    requires OnOrBefore(earlier, later)
    ensures CalculateAge(birth, earlier) <= CalculateAge(birth, later)
  {
    var a := CalculateAge(birth, earlier);
    AgeCountsBirthdays(birth, earlier, a);
    AgeCountsBirthdays(birth, later, a);
  }

  // ---------------------------------------------------------------------------------
  // Submission.

  /** The error map handleSubmit builds: every present key whose validation fails, with
      its message. */
  function SubmitErrors(draft: Draft, today: Date): (errors: map<string, string>)
    requires WellTyped(draft)
    ensures forall k | k in errors :: k in draft && k in TextFields && errors[k] == MessageFor(k)
  {
    map k | k in draft && ValidateField(k, draft[k], today) != "" :: ValidateField(k, draft[k], today)
  }

  /** The loop of handleSubmit over Object.keys(formData): validate each key and record the
      non-empty results. The keys may be visited in any order. */
  method CollectErrors(draft: Draft, today: Date) returns (newErrors: map<string, string>)
    requires WellTyped(draft)
    ensures newErrors == SubmitErrors(draft, today)
  {
    newErrors := map[];
    var pending := draft.Keys;
    while pending != {}
      invariant pending <= draft.Keys
      invariant forall k | k in newErrors :: k in draft && k !in pending
      invariant forall k | k in draft && k !in pending ::
        (k in newErrors <==> ValidateField(k, draft[k], today) != "")
        && (k in newErrors ==> newErrors[k] == ValidateField(k, draft[k], today))
      decreases |pending|
    {
      var key :| key in pending;
      var error := ValidateField(key, draft[key], today);
      if error != "" {
        newErrors := newErrors[key := error];
      }
      pending := pending - {key};
    }
  }

  /** A draft passes exactly when every present key passes its rule. */
  lemma SubmitGate(draft: Draft, today: Date)
    requires WellTyped(draft)
    ensures SubmitErrors(draft, today) == map[]
        <==> forall k | k in draft :: ValidateField(k, draft[k], today) == ""
  {
    if SubmitErrors(draft, today) == map[] {
      forall k | k in draft ensures ValidateField(k, draft[k], today) == "" {
        assert k !in SubmitErrors(draft, today);
      }
    }
  }

  /** Keys missing from the draft are never checked: the empty draft of a new customer
      has no errors and is forwarded as it is. */
  lemma EmptyDraftPasses(today: Date)
    ensures SubmitErrors(map[], today) == map[]
  {
  }

  /** One failing field, all others passing: the errors are that field's message alone. */
  lemma OneFailingField(draft: Draft, field: string, today: Date)
    requires WellTyped(draft) && field in draft
    requires ValidateField(field, draft[field], today) != ""
    requires forall k | k in draft && k != field :: ValidateField(k, draft[k], today) == ""
    ensures SubmitErrors(draft, today) == map[field := MessageFor(field)]
  {
    var e := SubmitErrors(draft, today);
    assert field in e;
    assert e.Keys == {field};
  }

  /** Editing a fetched record still checks dni, gender and birth_date on submit, although
      the edit form shows no input for them: the record carries those properties. */
  lemma EditedRecordChecksFixedFields(u: User, today: Date)
    ensures "dni" in SubmitErrors(AsDraft(u), today) <==> !(|u.dni| == 8 && AllDigits(u.dni))
    ensures "gender" in SubmitErrors(AsDraft(u), today) <==> u.gender == ""
    ensures forall b | ParseIsoDate(u.birthDate) == Some(b) ::
      "birth_date" in SubmitErrors(AsDraft(u), today) <==> CalculateAge(b, today) < 18
    ensures ParseIsoDate(u.birthDate).None? ==> "birth_date" !in SubmitErrors(AsDraft(u), today)
  {
    var d := AsDraft(u);
    assert d["dni"] == Text(u.dni) && d["gender"] == Text(u.gender);
    assert d["birth_date"] == Text(u.birthDate);
    DniRule(u.dni, today);
    GenderRule(u.gender, today);
  }

  // ---------------------------------------------------------------------------------
  // The form component's state.

  /** isEditMode: the initial record has a truthy ID. A draft without an ID, such as the
      default {} of a new customer, or with a falsy one (0, "", false) is create mode. */
  function IsEditMode(initialData: Draft): (edit: bool)
    ensures edit ==> "ID" in initialData
    ensures edit ==> initialData["ID"] !in {Number(0), Text(""), Flag(false)}
  {
    "ID" in initialData && Truthy(initialData["ID"])
  }

  /** A fetched record opens the form in edit mode exactly when its ID is not 0. */
  lemma EditModeOfRecord(u: User)
    ensures IsEditMode(AsDraft(u)) <==> u.id != 0
  {
  }

  /** The fields typed into through an onChangeText handler: first_name, last_name, phone,
      email and city always, dni and gender only when creating. The birth date is shown in
      a text field too, but it has no onChangeText: it is set through the date picker. */
  function InputFields(editMode: bool): (fields: set<string>)
    ensures fields <= TextFields && "birth_date" !in fields
    ensures {"first_name", "last_name", "phone", "email", "city"} <= fields
    ensures "dni" in fields <==> !editMode
    ensures "gender" in fields <==> !editMode
  {
    {"first_name", "last_name", "phone", "email", "city"}
      + (if editMode then {} else {"dni", "gender"})
  }

  /** In edit mode exactly dni, gender and birth_date cannot be typed into, and they are
      the three properties EditedRecordChecksFixedFields shows are still checked. */
  lemma EditModeHidesFixedFields()
    ensures TextFields - InputFields(true) == {"dni", "gender", "birth_date"}
    ensures TextFields - InputFields(false) == {"birth_date"}
  {
  }

  class Form {
    const isEditMode: bool
    var formData: Draft
    var errors: map<string, string>
    /** The drafts passed to onSubmit, in order. */
    var submitted: seq<Draft>

    ghost predicate Valid()
      reads this
    {
      WellTyped(formData)
    }

    constructor (initialData: Draft)
      requires WellTyped(initialData)
      ensures Valid()
      ensures formData == initialData && errors == map[] && submitted == []
      ensures isEditMode == IsEditMode(initialData)
    {
      isEditMode := IsEditMode(initialData);
      formData := initialData;
      errors := map[];
      submitted := [];
    }

    /** onChangeText of a field's input: the field's error becomes its validation result
        ("" when it passes, not removed) and the draft takes the text; nothing else changes. */
    method OnChangeText(field: string, text: string, today: Date)
      requires Valid() && field in InputFields(isEditMode)
      modifies this
      ensures Valid()
      ensures formData == old(formData)[field := Text(text)]
      ensures errors == old(errors)[field := ValidateField(field, Text(text), today)]
      ensures submitted == old(submitted)
    {
      errors := errors[field := ValidateField(field, Text(text), today)];
      formData := formData[field := Text(text)];
    }

    /** handleDateChange of the date picker (shown only when creating). With no date chosen
        nothing changes; otherwise the date is stored as ISO text and its error is the age
        rule applied to the chosen date. */
    method HandleDateChange(selected: Option<Date>, today: Date)
      requires Valid() && !isEditMode
      requires selected.Some? ==> IsIsoDate(selected.value)
      modifies this
      ensures Valid() && submitted == old(submitted)
      ensures selected.None? ==> formData == old(formData) && errors == old(errors)
      ensures selected.Some? ==>
        formData == old(formData)["birth_date" := Text(FormatIsoDate(selected.value))]
      ensures selected.Some? ==>
        errors == old(errors)["birth_date" :=
          if CalculateAge(selected.value, today) >= 18 then "" else BirthDateMessage]
    {
      if selected.Some? {
        var birthDate := FormatIsoDate(selected.value);
        ParseFormat(selected.value);
        var error := ValidateField("birth_date", Text(birthDate), today);
        errors := errors["birth_date" := error];
        formData := formData["birth_date" := Text(birthDate)];
      }
    }

    /** handleSubmit: the error map is replaced by the draft's failing keys, and onSubmit
        receives the unchanged draft once exactly when there are none. */
    method HandleSubmit(today: Date)
      requires Valid()
      modifies this
      ensures Valid() && formData == old(formData)
      ensures errors == SubmitErrors(formData, today)
      ensures submitted == old(submitted) + (if errors == map[] then [formData] else [])
    {
      var newErrors := CollectErrors(formData, today);
      errors := newErrors;
      if |newErrors| == 0 {
        submitted := submitted + [formData];
      } else {
        assert newErrors != map[];
      }
    }
  }

}

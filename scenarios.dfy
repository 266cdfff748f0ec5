/**
 * Worked examples: facts proved about single values given to the type
 * detector, and about the four example command lines applied to the six
 * templates the seeding script stores.
 *
 * Most examples take their literal as a parameter (`requires s == "..."`), or
 * keep it only in the `ensures`, instead of writing `DetectFieldType("...")`
 * in a body: a function applied to a literal is unfolded all the way by the
 * verifier, and through the validators that is far too expensive.
 */
module Scenarios {
  import opened Wrappers
  import opened Validators
  import opened Database
  import opened App
  import Strings

  // ------------------------------------------------------------ type detector

  /** Without the spaces the phone layout does not match, and the value is text. */
  lemma UnspacedPhone(s: string)
    requires s == "+79031234578"
    ensures DetectFieldType(s) == "text"
  {
    TextExample(s);
  }

  /** The character of one decimal digit. */
  function DigitChar(k: nat): (c: char)
    requires k < 10
    ensures '0' <= c <= '9'
  {
    ('0' as int + k) as char
  }

  /** A number written in two digits. */
  lemma PadTwo(n: nat)
    ensures Pad(n, 2) == [DigitChar(n / 10 % 10), DigitChar(n % 10)]
  {
    assert Pad(n / 10, 1) == [DigitChar(n / 10 % 10)];
  }

  /** A number written in four digits. */
  lemma PadFour(n: nat)
    ensures Pad(n, 4) == [DigitChar(n / 10 / 10 / 10 % 10), DigitChar(n / 10 / 10 % 10), DigitChar(n / 10 % 10),
                          DigitChar(n % 10)]
  {
    PadTwo(n / 10 / 10);
    assert Pad(n / 10, 3) == Pad(n / 10 / 10, 2) + [DigitChar(n / 10 % 10)];
  }

  /** Day, month and year in the dd.mm.yyyy layout. */
  lemma DayFirstSpelling(day: nat, month: nat, year: nat)
    requires day < 100 && month < 100 && year < 10000
    ensures Format(Date(year, month, day), DayFirst) ==
      [DigitChar(day / 10 % 10), DigitChar(day % 10), '.', DigitChar(month / 10 % 10), DigitChar(month % 10), '.',
       DigitChar(year / 10 / 10 / 10 % 10), DigitChar(year / 10 / 10 % 10), DigitChar(year / 10 % 10),
       DigitChar(year % 10)]
  {
    PadTwo(day);
    PadTwo(month);
    PadFour(year);
  }

  lemma DayOfMonthExample(s: string)
    requires s == "27.05.2025"
    ensures ValidateDate(s)
  {
    DayFirstSpelling(27, 5, 2025);
    assert s == Format(Date(2025, 5, 27), DayFirst);
    ValidateDateOfFormat(Date(2025, 5, 27), DayFirst);
  }

  /** Year, month and day in the yyyy-mm-dd layout. */
  lemma YearFirstSpelling(year: nat, month: nat, day: nat)
    requires day < 100 && month < 100 && year < 10000
    ensures Format(Date(year, month, day), YearFirst) ==
      [DigitChar(year / 10 / 10 / 10 % 10), DigitChar(year / 10 / 10 % 10), DigitChar(year / 10 % 10),
       DigitChar(year % 10), '-', DigitChar(month / 10 % 10), DigitChar(month % 10), '-',
       DigitChar(day / 10 % 10), DigitChar(day % 10)]
  {
    PadTwo(day);
    PadTwo(month);
    PadFour(year);
  }

  lemma YearFirstDayExample(s: string)
    requires s == "2025-05-27"
    ensures ValidateDate(s)
  {
    YearFirstSpelling(2025, 5, 27);
    assert s == Format(Date(2025, 5, 27), YearFirst);
    ValidateDateOfFormat(Date(2025, 5, 27), YearFirst);
  }

  lemma LeapDayExample(s: string)
    requires s == "29.02.2024"
    ensures ValidateDate(s)
  {
    DayFirstSpelling(29, 2, 2024);
    assert s == Format(Date(2024, 2, 29), DayFirst);
    ValidateDateOfFormat(Date(2024, 2, 29), DayFirst);
  }

  lemma DayThirtyTwoExample(s: string)
    requires s == "32.01.2025"
    ensures !ValidateDate(s)
  {
    DayFirstSpelling(32, 1, 2025);
    assert s == Format(Date(2025, 1, 32), DayFirst);
    ValidateDateOfFormat(Date(2025, 1, 32), DayFirst);
  }

  lemma LeapDayOfCommonYearExample(s: string)
    requires s == "29.02.2023"
    ensures !ValidateDate(s)
  {
    DayFirstSpelling(29, 2, 2023);
    assert s == Format(Date(2023, 2, 29), DayFirst);
    ValidateDateOfFormat(Date(2023, 2, 29), DayFirst);
  }

  lemma MonthThirteenExample(s: string)
    requires s == "01.13.2025"
    ensures !ValidateDate(s)
  {
    DayFirstSpelling(1, 13, 2025);
    assert s == Format(Date(2025, 13, 1), DayFirst);
    ValidateDateOfFormat(Date(2025, 13, 1), DayFirst);
  }

  /** A value that is neither ten, sixteen nor seventeen characters long and has no '@' is text. */
  lemma TextExample(s: string)
    requires |s| != 10 && |s| != 16 && |s| != 17
    requires forall i :: 0 <= i < |s| ==> s[i] != '@'
    ensures DetectFieldType(s) == "text"
  {
    if ValidateDate(s) {
      DateHasNoAt(s);
    }
    if ValidatePhone(s) {
      PhoneHasNoAt(s);
    }
    NoAtNotEmail(s);
  }

  /** A local part, a domain and a top-level domain, with no '.' doubled or at either end, make an email. */
  lemma EmailExample(local: string, domain: string, tld: string, s: string)
    requires s == local + "@" + domain + "." + tld
    requires |local| > 0 && AllLocalChars(local) && local[0] != '.'
    requires |domain| > 0 && AllDomainChars(domain)
    requires |tld| >= 2 && AllLetters(tld)
    requires forall i :: 0 <= i < |s| - 1 ==> s[i] != '.' || s[i + 1] != '.'
    ensures DetectFieldType(s) == "email"
  {
    EmailOfParts(local, domain, tld);
    Strings.NotContainsPair(s, '.', '.');
    assert s[0] == local[0];
    assert s[|s| - 1] == tld[|tld| - 1];
    DetectFieldTypeExact(s);
  }

  /** The '.' checks look at the whole value, so a local part may still end in '.'. */
  lemma LocalPartEndingInDot(s: string)
    requires s == "a.@b.ru"
    ensures DetectFieldType(s) == "email"
  {
    EmailExample("a.", "b", "ru", s);
  }

  /** The pattern's final anchor also accepts one trailing line feed. */
  lemma PhoneWithLineFeed(s: string)
    requires s == "+7 903 123 45 78\n"
    ensures DetectFieldType(s) == "phone"
  {
    PhoneFromGroups("903", "123", "45", "78");
    assert s[..|s| - 1] == "+7 " + "903" + " " + "123" + " " + "45" + " " + "78";
    assert ValidatePhone(s);
    DetectFieldTypeExact(s);
  }

  lemma VasyaValue(s: string)
    requires s == "vasya@pukin.ru"
    ensures DetectFieldType(s) == "email"
  {
    EmailExample("vasya", "pukin", "ru", s);
  }

  lemma LoginValue(s: string)
    requires s == "test@example.com"
    ensures DetectFieldType(s) == "email"
  {
    EmailExample("test", "example", "com", s);
  }

  lemma DateValue(s: string)
    requires s == "27.05.2025"
    ensures DetectFieldType(s) == "date"
  {
    DayOfMonthExample(s);
    DetectFieldTypeExact(s);
  }

  lemma PhoneValue(s: string)
    requires s == "+7 903 123 45 78"
    ensures DetectFieldType(s) == "phone"
  {
    PhoneFromGroups("903", "123", "45", "78");
    assert s == "+7 " + "903" + " " + "123" + " " + "45" + " " + "78";
    DetectFieldTypeExact(s);
  }

  lemma TelValue(s: string)
    requires s == "+7 999 888 77 66"
    ensures DetectFieldType(s) == "phone"
  {
    PhoneFromGroups("999", "888", "77", "66");
    assert s == "+7 " + "999" + " " + "888" + " " + "77" + " " + "66";
    DetectFieldTypeExact(s);
  }

  lemma TextValues(customer: string, orderId: string)
    requires customer == "John" && orderId == "123"
    ensures DetectFieldType(customer) == "text" && DetectFieldType(orderId) == "text"
  {
    TextExample(customer);
    TextExample(orderId);
  }

  // ---------------------------------------------------------- template lookup

  /** The six templates the seeding script stores, in the order it adds them. */
  const UserData: Template := map["name" := "Данные пользователя", "login" := "email", "tel" := "phone"]
  const Order: Template := map["name" := "Форма заказа", "customer" := "text", "order_id" := "text",
                               "дата_заказа" := "date", "contact" := "phone"]
  const Probe: Template := map["name" := "Проба", "f_name1" := "email", "f_name2" := "date"]
  const Simple: Template := map["name" := "Простая форма", "user_name" := "text", "user_email" := "email"]
  const Dated: Template := map["name" := "Форма с датой", "event_date" := "date", "event_name" := "text"]
  const Contact: Template := map["name" := "Контактная форма", "phone" := "phone", "email" := "email",
                                 "message" := "text"]
  const SeedForms: seq<Template> := [UserData, Order, Probe, Simple, Dated, Contact]

  /** A template one of whose required fields the query lacks is not eligible. */
  lemma Lacks(t: Template, types: map<string, string>, k: string)
    requires k in t && k != NameKey && k !in types
    ensures !Eligible(t, types)
  {
    assert k in TemplateFields(t);
  }

  /** When exactly one stored template is eligible, the lookup returns its name. */
  lemma OnlyEligible(forms: seq<Template>, types: map<string, string>, i: int)
    requires 0 <= i < |forms| && Eligible(forms[i], types)
    requires forall j :: 0 <= j < |forms| && j != i ==> !Eligible(forms[j], types)
    ensures MatchOf(forms, types) == Some(forms[i][NameKey])
  {
    MatchOfIsBest(forms, types);
  }

  /** The templates a query passes over when it lacks one field of each. */
  lemma OthersLack(types: map<string, string>, i: int)
    requires 0 <= i < |SeedForms|
    requires i != 0 ==> "login" !in types
    requires i != 1 ==> "customer" !in types
    requires i != 2 ==> "f_name1" !in types
    requires i != 3 ==> "user_name" !in types
    requires i != 4 ==> "event_date" !in types
    requires i != 5 ==> "phone" !in types
    ensures forall j :: 0 <= j < |SeedForms| && j != i ==> !Eligible(SeedForms[j], types)
  {
    forall j | 0 <= j < |SeedForms| && j != i ensures !Eligible(SeedForms[j], types) {
      if j == 0 { Lacks(SeedForms[j], types, "login"); }
      else if j == 1 { Lacks(SeedForms[j], types, "customer"); }
      else if j == 2 { Lacks(SeedForms[j], types, "f_name1"); }
      else if j == 3 { Lacks(SeedForms[j], types, "user_name"); }
      else if j == 4 { Lacks(SeedForms[j], types, "event_date"); }
      else { Lacks(SeedForms[j], types, "phone"); }
    }
  }

  /** A named template whose every field the query supplies with its type, and that has a field, is eligible. */
  lemma Covered(t: Template, types: map<string, string>, k0: string)
    requires NameKey in t && t[NameKey] != ""
    requires k0 in t && k0 != NameKey
    requires forall k :: k in t && k != NameKey ==> k in types && types[k] == t[k]
    ensures Eligible(t, types)
  {
    var fields := TemplateFields(t);
    assert k0 in fields;
    assert |fields.Keys - {k0}| < |fields.Keys|;
  }

  lemma ProbaTaken(types: map<string, string>)
    requires "f_name1" in types && types["f_name1"] == "email"
    requires "f_name2" in types && types["f_name2"] == "date"
    ensures Eligible(Probe, types)
  {
    Covered(Probe, types, "f_name1");
  }

  /** Example 1: a query with exactly those fields finds "Проба". */
  lemma ProbaFound(types: map<string, string>)
    requires types == map["f_name1" := "email", "f_name2" := "date"]
    ensures MatchOf(SeedForms, types) == Some("Проба")
  {
    assert "f_name1" in types && types["f_name1"] == "email";
    assert "f_name2" in types && types["f_name2"] == "date";
    assert "login" !in types && "customer" !in types && "user_name" !in types;
    assert "event_date" !in types && "phone" !in types;
    ProbaTaken(types);
    OthersLack(types, 2);
    OnlyEligible(SeedForms, types, 2);
  }

  lemma OrderTaken(types: map<string, string>)
    requires "customer" in types && types["customer"] == "text"
    requires "order_id" in types && types["order_id"] == "text"
    requires "дата_заказа" in types && types["дата_заказа"] == "date"
    requires "contact" in types && types["contact"] == "phone"
    ensures Eligible(Order, types)
  {
    Covered(Order, types, "customer");
  }

  /** Example 2: a query with exactly the four fields of an order finds "Форма заказа". */
  lemma OrderFound(types: map<string, string>)
    requires types == map["customer" := "text", "order_id" := "text", "дата_заказа" := "date", "contact" := "phone"]
    ensures MatchOf(SeedForms, types) == Some("Форма заказа")
  {
    assert "customer" in types && types["customer"] == "text";
    assert "order_id" in types && types["order_id"] == "text";
    assert "дата_заказа" in types && types["дата_заказа"] == "date";
    assert "contact" in types && types["contact"] == "phone";
    assert "login" !in types && "f_name1" !in types && "user_name" !in types;
    assert "event_date" !in types && "phone" !in types;
    OrderTaken(types);
    OthersLack(types, 1);
    OnlyEligible(SeedForms, types, 1);
  }

  /** Example 3: fields no template mentions find nothing. */
  lemma NothingFound(types: map<string, string>)
    requires types == map["tumba" := "date", "yumba" := "phone"]
    ensures MatchOf(SeedForms, types) == None
  {
    assert "login" !in types && "customer" !in types && "f_name1" !in types && "user_name" !in types;
    assert "event_date" !in types && "phone" !in types;
    OthersLack(types, 0);
    Lacks(SeedForms[0], types, "login");
    MatchOfIsBest(SeedForms, types);
  }

  lemma UserDataTaken(types: map<string, string>)
    requires "login" in types && types["login"] == "email"
    requires "tel" in types && types["tel"] == "phone"
    ensures Eligible(UserData, types)
  {
    Covered(UserData, types, "login");
  }

  /** Example 4: a query with exactly those fields finds "Данные пользователя". */
  lemma UserDataFound(types: map<string, string>)
    requires types == map["login" := "email", "tel" := "phone"]
    ensures MatchOf(SeedForms, types) == Some("Данные пользователя")
  {
    assert "login" in types && types["login"] == "email";
    assert "tel" in types && types["tel"] == "phone";
    assert "customer" !in types && "f_name1" !in types && "user_name" !in types;
    assert "event_date" !in types && "phone" !in types;
    UserDataTaken(types);
    OthersLack(types, 0);
    OnlyEligible(SeedForms, types, 0);
  }

  // --------------------------------------------------------- whole command lines

  /** Adding a field to the dict adds it to its map. */
  lemma ToMapSnoc(fields: Fields, f: (string, string))
    ensures ToMap(fields + [f]) == ToMap(fields)[f.0 := f.1]
  {
    assert (fields + [f])[..|fields|] == fields;
  }

  /** Adding a field to the query adds its detected type. */
  lemma FieldTypesUpdate(m: map<string, string>, k: string, v: string)
    ensures FieldTypes(m[k := v]) == FieldTypes(m)[k := DetectFieldType(v)]
  {
  }

  /** The detected types of two fields. */
  lemma TwoFieldTypes(f0: (string, string), f1: (string, string))
    ensures FieldTypes(ToMap([f0, f1])) == map[f0.0 := DetectFieldType(f0.1)][f1.0 := DetectFieldType(f1.1)]
  {
    ToMapSnoc([], f0);
    ToMapSnoc([f0], f1);
    assert [] + [f0] == [f0] && [f0] + [f1] == [f0, f1];
    FieldTypesUpdate(map[], f0.0, f0.1);
    FieldTypesUpdate(map[f0.0 := f0.1], f1.0, f1.1);
  }

  /** The detected types of four fields. */
  lemma FourFieldTypes(f0: (string, string), f1: (string, string), f2: (string, string), f3: (string, string))
    ensures FieldTypes(ToMap([f0, f1, f2, f3])) ==
      map[f0.0 := DetectFieldType(f0.1)][f1.0 := DetectFieldType(f1.1)]
         [f2.0 := DetectFieldType(f2.1)][f3.0 := DetectFieldType(f3.1)]
  {
    ToMapSnoc([f0, f1], f2);
    ToMapSnoc([f0, f1, f2], f3);
    assert [f0, f1] + [f2] == [f0, f1, f2] && [f0, f1, f2] + [f3] == [f0, f1, f2, f3];
    TwoFieldTypes(f0, f1);
    FieldTypesUpdate(ToMap([f0, f1]), f2.0, f2.1);
    FieldTypesUpdate(ToMap([f0, f1, f2]), f3.0, f3.1);
  }

  /** The rendering of two typed fields: the braces around their two lines. */
  lemma TwoFieldRender(f0: (string, string), f1: (string, string))
    ensures Render([f0, f1]) == "{\n  " + f0.0 + ": " + f0.1 + ",\n  " + f1.0 + ": " + f1.1 + "\n}"
  {
    var lines := TypeLines([f0, f1]);
    assert lines == [TypeLine(f0), TypeLine(f1)];
    assert lines[..1] == [TypeLine(f0)];
    assert Strings.Join(",\n", lines) == TypeLine(f0) + ",\n" + TypeLine(f1);
  }

  /** The detected types of two fields, in order. */
  lemma TwoDetectedTypes(f0: (string, string), f1: (string, string))
    ensures DetectedTypes([f0, f1]) == [(f0.0, DetectFieldType(f0.1)), (f1.0, DetectFieldType(f1.1))]
  {
  }

  // Example 1 of the test script: "Проба".

  const ProbaFields: Fields := [("f_name1", "vasya@pukin.ru"), ("f_name2", "27.05.2025")]

  lemma ProbaSpelling()
    ensures ["app.py", "get_tpl", "--f_name1=vasya@pukin.ru", "--f_name2=27.05.2025"] == ["app.py", "get_tpl"] + Arguments(ProbaFields)
  {
    assert "--" + "f_name1" + "=" + "vasya@pukin.ru" == "--f_name1=vasya@pukin.ru";
    assert "--" + "f_name2" + "=" + "27.05.2025" == "--f_name2=27.05.2025";
  }

  /** The command line of example 1 parses back to its two fields. */
  lemma ProbaParse(argv: seq<string>)
    requires argv == ["app.py", "get_tpl", "--f_name1=vasya@pukin.ru", "--f_name2=27.05.2025"]
    ensures |argv| >= 2 && argv[1] == "get_tpl" && Parsed(argv[2..]) == ProbaFields
  {
    ProbaSpelling();
    CommandLineParses(argv, ProbaFields);
  }

  lemma ProbaTypes()
    ensures FieldTypes(ToMap(ProbaFields)) == map["f_name1" := "email", "f_name2" := "date"]
  {
    VasyaValue(ProbaFields[0].1);
    DateValue(ProbaFields[1].1);
    TwoFieldTypes(ProbaFields[0], ProbaFields[1]);
  }

  lemma ProbaCommand(argv: seq<string>)
    requires argv == ["app.py", "get_tpl", "--f_name1=vasya@pukin.ru", "--f_name2=27.05.2025"]
    ensures MainOutcome(argv, SeedForms) == Found("Проба")
  {
    ProbaParse(argv);
    ProbaTypes();
    var types := map["f_name1" := "email", "f_name2" := "date"];
    ProbaFound(types);
    MainOfParsed(argv, SeedForms, ProbaFields, types);
  }

  // Example 2 of the test script: "Форма заказа".

  const OrderFields: Fields := [("customer", "John"), ("order_id", "123"), ("дата_заказа", "27.05.2025"),
                                ("contact", "+7 903 123 45 78")]

  lemma OrderSpelling()
    ensures ["app.py", "get_tpl", "--customer=John", "--order_id=123", "--дата_заказа=27.05.2025",
             "--contact=+7 903 123 45 78"] == ["app.py", "get_tpl"] + Arguments(OrderFields)
  {
    assert "--" + "customer" + "=" + "John" == "--customer=John";
    assert "--" + "order_id" + "=" + "123" == "--order_id=123";
    assert "--" + "дата_заказа" + "=" + "27.05.2025" == "--дата_заказа=27.05.2025";
    assert "--" + "contact" + "=" + "+7 903 123 45 78" == "--contact=+7 903 123 45 78";
  }

  /** The command line of example 2 parses back to its four fields. */
  lemma OrderParse(argv: seq<string>)
    requires argv == ["app.py", "get_tpl", "--customer=John", "--order_id=123", "--дата_заказа=27.05.2025",
                      "--contact=+7 903 123 45 78"]
    ensures |argv| >= 2 && argv[1] == "get_tpl" && Parsed(argv[2..]) == OrderFields
  {
    OrderSpelling();
    CommandLineParses(argv, OrderFields);
  }

  lemma OrderTypes()
    ensures FieldTypes(ToMap(OrderFields)) ==
      map["customer" := "text", "order_id" := "text", "дата_заказа" := "date", "contact" := "phone"]
  {
    TextValues(OrderFields[0].1, OrderFields[1].1);
    DateValue(OrderFields[2].1);
    PhoneValue(OrderFields[3].1);
    FourFieldTypes(OrderFields[0], OrderFields[1], OrderFields[2], OrderFields[3]);
  }

  lemma OrderCommand(argv: seq<string>)
    requires argv == ["app.py", "get_tpl", "--customer=John", "--order_id=123", "--дата_заказа=27.05.2025",
                      "--contact=+7 903 123 45 78"]
    ensures MainOutcome(argv, SeedForms) == Found("Форма заказа")
  {
    OrderParse(argv);
    OrderTypes();
    var types := map["customer" := "text", "order_id" := "text", "дата_заказа" := "date", "contact" := "phone"];
    OrderFound(types);
    MainOfParsed(argv, SeedForms, OrderFields, types);
  }

  // Example 3 of the test script: no template, so the report.

  const UnknownFields: Fields := [("tumba", "27.05.2025"), ("yumba", "+7 903 123 45 78")]

  lemma UnknownSpelling()
    ensures ["app.py", "get_tpl", "--tumba=27.05.2025", "--yumba=+7 903 123 45 78"] == ["app.py", "get_tpl"] + Arguments(UnknownFields)
  {
    assert "--" + "tumba" + "=" + "27.05.2025" == "--tumba=27.05.2025";
    assert "--" + "yumba" + "=" + "+7 903 123 45 78" == "--yumba=+7 903 123 45 78";
  }

  /** The command line of example 3 parses back to its two fields. */
  lemma UnknownParse(argv: seq<string>)
    requires argv == ["app.py", "get_tpl", "--tumba=27.05.2025", "--yumba=+7 903 123 45 78"]
    ensures |argv| >= 2 && argv[1] == "get_tpl" && Parsed(argv[2..]) == UnknownFields
  {
    UnknownSpelling();
    CommandLineParses(argv, UnknownFields);
  }

  lemma UnknownTypes()
    ensures FieldTypes(ToMap(UnknownFields)) == map["tumba" := "date", "yumba" := "phone"]
  {
    DateValue(UnknownFields[0].1);
    PhoneValue(UnknownFields[1].1);
    TwoFieldTypes(UnknownFields[0], UnknownFields[1]);
  }

  lemma UnknownDetected()
    ensures DetectedTypes(UnknownFields) == [("tumba", "date"), ("yumba", "phone")]
  {
    DateValue(UnknownFields[0].1);
    PhoneValue(UnknownFields[1].1);
    TwoDetectedTypes(UnknownFields[0], UnknownFields[1]);
  }

  lemma UnknownRendered()
    ensures Render([("tumba", "date"), ("yumba", "phone")]) == "{\n  tumba: date,\n  yumba: phone\n}"
  {
    TwoFieldRender(("tumba", "date"), ("yumba", "phone"));
  }

  lemma UnknownReport()
    ensures Report(UnknownFields) == "{\n  tumba: date,\n  yumba: phone\n}"
  {
    UnknownDetected();
    UnknownRendered();
  }

  lemma UnknownCommandLine(argv: seq<string>)
    requires argv == ["app.py", "get_tpl", "--tumba=27.05.2025", "--yumba=+7 903 123 45 78"]
    ensures MainOutcome(argv, SeedForms) == NotFound("{\n  tumba: date,\n  yumba: phone\n}")
  {
    UnknownParse(argv);
    UnknownTypes();
    var types := map["tumba" := "date", "yumba" := "phone"];
    NothingFound(types);
    UnknownReport();
    MainOfParsed(argv, SeedForms, UnknownFields, types);
  }

  // Example 4 of the test script: "Данные пользователя".

  const UserDataFields: Fields := [("login", "test@example.com"), ("tel", "+7 999 888 77 66")]

  lemma UserDataSpelling()
    ensures ["app.py", "get_tpl", "--login=test@example.com", "--tel=+7 999 888 77 66"] == ["app.py", "get_tpl"] + Arguments(UserDataFields)
  {
    assert "--" + "login" + "=" + "test@example.com" == "--login=test@example.com";
    assert "--" + "tel" + "=" + "+7 999 888 77 66" == "--tel=+7 999 888 77 66";
  }

  /** The command line of example 4 parses back to its two fields. */
  lemma UserDataParse(argv: seq<string>)
    requires argv == ["app.py", "get_tpl", "--login=test@example.com", "--tel=+7 999 888 77 66"]
    ensures |argv| >= 2 && argv[1] == "get_tpl" && Parsed(argv[2..]) == UserDataFields
  {
    UserDataSpelling();
    CommandLineParses(argv, UserDataFields);
  }

  lemma UserDataTypes()
    ensures FieldTypes(ToMap(UserDataFields)) == map["login" := "email", "tel" := "phone"]
  {
    LoginValue(UserDataFields[0].1);
    TelValue(UserDataFields[1].1);
    TwoFieldTypes(UserDataFields[0], UserDataFields[1]);
  }

  lemma UserDataCommand(argv: seq<string>)
    requires argv == ["app.py", "get_tpl", "--login=test@example.com", "--tel=+7 999 888 77 66"]
    ensures MainOutcome(argv, SeedForms) == Found("Данные пользователя")
  {
    UserDataParse(argv);
    UserDataTypes();
    var types := map["login" := "email", "tel" := "phone"];
    UserDataFound(types);
    MainOfParsed(argv, SeedForms, UserDataFields, types);
  }
}

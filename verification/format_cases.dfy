/** The formatter's behaviour on the inputs of `__tests__/basic.test.ts`,
    derived from the general serializer definitions. Literal strings enter
    the lemmas as parameters pinned by `requires`, so that each step of
    text assembly stays a small proof. */
module FormatCases {
  import opened Wrappers
  import opened Chars
  import opened JsonValue
  import opened Types
  import opened Serializer
  import opened Formatter

  // ---------------------------------------------------------------------
  // Text of small values

  lemma Join2(a: string, b: string, sep: string)
    ensures Join([a, b], sep) == a + sep + b
  {
    assert [a, b][1..] == [b];
  }

  lemma Join3(a: string, b: string, c: string, sep: string)
    ensures Join([a, b, c], sep) == a + sep + b + sep + c
  {
    assert [a, b, c][1..] == [b, c];
    Join2(b, c, sep);
  }

  /** A string of plain characters is quoted without escapes. */
  lemma QuoteOf(s: string)
    requires forall i :: 0 <= i < |s| ==> Plain(s[i])
    ensures Quote(s) == "\"" + s + "\""
  {
    EscapePlain(s);
  }

  /** The number thirty is written as its two digits at any indent. */
  lemma Thirty(indent: string, gap: string)
    ensures Ser(Num(30), indent, gap) == "30"
  {
    assert NatToString(30) == NatToString(3) + [DigitChar(0)];
  }

  // ---------------------------------------------------------------------
  // Compact output (no indent unit)

  lemma MinifiedArray(v: Json, indent: string)
    requires v.Arr? && |v.items| > 0
    ensures Ser(v, indent, "") == "[" + Join(SerItems(v, 0, indent, ""), ",") + "]"
  {
    assert indent + "" == indent;
    var parts := SerItems(v, 0, indent, "");
    assert "," + Break(indent, "") == ",";
    assert Layout(parts, indent, "", ']') == Join(parts, ",") + "]";
  }

  lemma MinifiedObject(v: Json, indent: string)
    requires v.Obj? && |v.fields| > 0
    ensures Ser(v, indent, "") == "{" + Join(SerMembers(v, 0, indent, ""), ",") + "}"
  {
    assert indent + "" == indent;
    var parts := SerMembers(v, 0, indent, "");
    assert "," + Break(indent, "") == ",";
    assert Layout(parts, indent, "", '}') == Join(parts, ",") + "}";
  }

  /** A two-element array in compact form. */
  lemma MinifiedPair(a: Json, b: Json)
    ensures Ser(Arr([a, b]), "", "") == "[" + Ser(a, "", "") + "," + Ser(b, "", "") + "]"
  {
    var v := Arr([a, b]);
    assert SerItems(v, 0, "", "") == [Ser(a, "", ""), Ser(b, "", "")] by {
      SerItemsCons(v, 0, "", "");
      SerItemsCons(v, 1, "", "");
    }
    Join2(Ser(a, "", ""), Ser(b, "", ""), ",");
    MinifiedArray(v, "");
  }

  lemma Regroup(a: string, b: string, c: string)
    ensures "{" + (a + "," + b + "," + c) + "}" == "{" + a + "," + b + "," + c + "}"
  {
  }

  /** A three-member object in compact form: members in insertion order,
      each `"key":value`, separated by commas. */
  lemma MinifiedTriple(k1: string, v1: Json, k2: string, v2: Json, k3: string, v3: Json)
    ensures Ser(Obj([(k1, v1), (k2, v2), (k3, v3)]), "", "")
         == "{" + (Quote(k1) + ":" + Ser(v1, "", "")) + "," + (Quote(k2) + ":" + Ser(v2, "", "")) + ","
            + (Quote(k3) + ":" + Ser(v3, "", "")) + "}"
  {
    var v := Obj([(k1, v1), (k2, v2), (k3, v3)]);
    var p1 := Quote(k1) + ":" + Ser(v1, "", "");
    var p2 := Quote(k2) + ":" + Ser(v2, "", "");
    var p3 := Quote(k3) + ":" + Ser(v3, "", "");
    assert SerMembers(v, 0, "", "") == [p1, p2, p3] by {
      SerMembersCons(v, 0, "", "");
      SerMembersCons(v, 1, "", "");
      SerMembersCons(v, 2, "", "");
    }
    MinifiedObject(v, "");
    Join3(p1, p2, p3, ",");
    Regroup(p1, p2, p3);
  }

  lemma QuotedNameJohn(name: string, john: string)
    requires name == "name" && john == "John"
    ensures Quote(name) == "\"name\"" && Quote(john) == "\"John\""
  {
    QuoteOf(name); QuoteOf(john);
  }

  lemma QuotedAgeHobbies(age: string, hobbies: string)
    requires age == "age" && hobbies == "hobbies"
    ensures Quote(age) == "\"age\"" && Quote(hobbies) == "\"hobbies\""
  {
    QuoteOf(age); QuoteOf(hobbies);
  }

  lemma QuotedReadingCoding(reading: string, coding: string)
    requires reading == "reading" && coding == "coding"
    ensures Quote(reading) == "\"reading\"" && Quote(coding) == "\"coding\""
  {
    QuoteOf(reading); QuoteOf(coding);
  }

  lemma MinifiedMembers(qn: string, qj: string, qa: string)
    requires qn == "\"name\"" && qj == "\"John\"" && qa == "\"age\""
    ensures qn + ":" + qj == "\"name\":\"John\""
    ensures qa + ":" + "30" == "\"age\":30"
  {
  }

  lemma MinifiedList(qr: string, qc: string)
    requires qr == "\"reading\"" && qc == "\"coding\""
    ensures "[" + qr + "," + qc + "]" == "[\"reading\",\"coding\"]"
  {
  }

  lemma MinifiedHobbies(qh: string, list: string)
    requires qh == "\"hobbies\"" && list == "[\"reading\",\"coding\"]"
    ensures qh + ":" + list == "\"hobbies\":[\"reading\",\"coding\"]"
  {
  }

  lemma AssembleHead(a: string, b: string)
    requires a == "\"name\":\"John\"" && b == "\"age\":30"
    ensures "{" + a + "," + b + "," == "{\"name\":\"John\",\"age\":30,"
  {
  }

  lemma AssembleTail(head: string, c: string)
    requires head == "{\"name\":\"John\",\"age\":30," && c == "\"hobbies\":[\"reading\",\"coding\"]"
    ensures head + c + "}" == "{\"name\":\"John\",\"age\":30,\"hobbies\":[\"reading\",\"coding\"]}"
  {
  }

  /** `minifyJSON({ name: 'John', age: 30, hobbies: ['reading', 'coding'] })`
      is exactly the compact text the test expects. */
  lemma MinifyExample(name: string, john: string, age: string, hobbies: string, reading: string, coding: string)
    requires name == "name" && john == "John" && age == "age" && hobbies == "hobbies"
    requires reading == "reading" && coding == "coding"
    ensures MinifyJson(Some(Obj([(name, Str(john)), (age, Num(30)), (hobbies, Arr([Str(reading), Str(coding)]))])))
         == "{\"name\":\"John\",\"age\":30,\"hobbies\":[\"reading\",\"coding\"]}"
  {
    var list := Arr([Str(reading), Str(coding)]);
    MinifiedTriple(name, Str(john), age, Num(30), hobbies, list);
    MinifiedPair(Str(reading), Str(coding));
    Thirty("", "");
    QuotedNameJohn(name, john);
    QuotedAgeHobbies(age, hobbies);
    QuotedReadingCoding(reading, coding);
    var qn, qj, qa, qh := Quote(name), Quote(john), Quote(age), Quote(hobbies);
    MinifiedMembers(qn, qj, qa);
    MinifiedList(Quote(reading), Quote(coding));
    var l := "[" + Quote(reading) + "," + Quote(coding) + "]";
    MinifiedHobbies(qh, l);
    var a := qn + ":" + qj;
    var b := qa + ":" + "30";
    var c := qh + ":" + l;
    AssembleHead(a, b);
    AssembleTail("{" + a + "," + b + ",", c);
    assert "{" + a + "," + b + "," + c + "}" == ("{" + a + "," + b + ",") + c + "}";
  }

  // ---------------------------------------------------------------------
  // Pretty output with the default options (two spaces)

  /** With the default options the indent unit is two spaces. */
  lemma DefaultPretty(v: Json)
    ensures FormatJson(Some(v), DefaultFormattingOptions) == Ser(v, "", "  ")
  {
    var unit := IndentationString(2, false).value;
    assert unit == "  ";
    IndentationIsGap(2, false);
  }

  /** Every member of an object shows up in its serialization as
      `"key": value`. */
  lemma PrettyMember(v: Json, indent: string, k: nat)
    requires v.Obj? && k < |v.fields|
    ensures Contains(Ser(v, indent, "  "),
                     Quote(v.fields[k].0) + ": " + Ser(v.fields[k].1, indent + "  ", "  "))
  {
    MemberText(v, indent, "  ", k);
  }

  /** Every key of an object, quoted, and every member value, serialized
      one level deeper, show up in the object's serialization. */
  lemma PrettyKeyValue(v: Json, indent: string, k: nat)
    requires v.Obj? && k < |v.fields|
    ensures Contains(Ser(v, indent, "  "), Quote(v.fields[k].0))
    ensures Contains(Ser(v, indent, "  "), Ser(v.fields[k].1, indent + "  ", "  "))
  {
    PrettyMember(v, indent, k);
    ContainsEnds(Ser(v, indent, "  "), Quote(v.fields[k].0), ": ", Ser(v.fields[k].1, indent + "  ", "  "));
  }

  /** A top-level member whose `"key": value` text is known shows up in
      the default pretty output. */
  lemma ShownMember(v: Json, k: nat, text: string)
    requires v.Obj? && k < |v.fields|
    requires text == Quote(v.fields[k].0) + ": " + Ser(v.fields[k].1, "  ", "  ")
    ensures Contains(FormatJson(Some(v), DefaultFormattingOptions), text)
  {
    DefaultPretty(v);
    assert "" + "  " == "  ";
    PrettyMember(v, "", k);
  }

  lemma NameJohn(qn: string, qj: string)
    requires qn == "\"name\"" && qj == "\"John\""
    ensures qn + ": " + qj == "\"name\": \"John\""
  {
  }

  lemma AgeThirty(qa: string)
    requires qa == "\"age\""
    ensures qa + ": " + "30" == "\"age\": 30"
  {
  }

  lemma ShowName(v: Json, name: string, john: string)
    requires v.Obj? && |v.fields| > 0 && v.fields[0] == (name, Str(john))
    requires name == "name" && john == "John"
    ensures Contains(FormatJson(Some(v), DefaultFormattingOptions), "\"name\": \"John\"")
  {
    QuoteOf(name); QuoteOf(john);
    NameJohn(Quote(name), Quote(john));
    ShownMember(v, 0, "\"name\": \"John\"");
  }

  lemma ShowAge(v: Json, age: string)
    requires v.Obj? && |v.fields| > 1 && v.fields[1] == (age, Num(30))
    requires age == "age"
    ensures Contains(FormatJson(Some(v), DefaultFormattingOptions), "\"age\": 30")
  {
    QuoteOf(age);
    Thirty("  ", "  ");
    AgeThirty(Quote(age));
    ShownMember(v, 1, "\"age\": 30");
  }

  /** `formatJSON({ name: 'John', age: 30 }, defaults)` contains
      `"name": "John"` and `"age": 30`. */
  lemma FormatExample(name: string, john: string, age: string)
    requires name == "name" && john == "John" && age == "age"
    ensures Contains(FormatJson(Some(Obj([(name, Str(john)), (age, Num(30))])), DefaultFormattingOptions),
                     "\"name\": \"John\"")
    ensures Contains(FormatJson(Some(Obj([(name, Str(john)), (age, Num(30))])), DefaultFormattingOptions),
                     "\"age\": 30")
  {
    var v := Obj([(name, Str(john)), (age, Num(30))]);
    ShowName(v, name, john);
    ShowAge(v, age);
  }

  lemma ShowEmptyObj(v: Json, eo: string)
    requires v.Obj? && |v.fields| > 0 && v.fields[0] == (eo, Obj([]))
    requires eo == "emptyObj"
    ensures Contains(FormatJson(Some(v), DefaultFormattingOptions), "\"emptyObj\": {}")
  {
    QuoteOf(eo);
    assert Quote(eo) + ": " + "{}" == "\"emptyObj\": {}";
    ShownMember(v, 0, "\"emptyObj\": {}");
  }

  lemma ShowEmptyArr(v: Json, ea: string)
    requires v.Obj? && |v.fields| > 1 && v.fields[1] == (ea, Arr([]))
    requires ea == "emptyArr"
    ensures Contains(FormatJson(Some(v), DefaultFormattingOptions), "\"emptyArr\": []")
  {
    QuoteOf(ea);
    assert Quote(ea) + ": " + "[]" == "\"emptyArr\": []";
    ShownMember(v, 1, "\"emptyArr\": []");
  }

  lemma ShowNull(v: Json, nv: string)
    requires v.Obj? && |v.fields| > 2 && v.fields[2] == (nv, Null)
    requires nv == "nullValue"
    ensures Contains(FormatJson(Some(v), DefaultFormattingOptions), "\"nullValue\": null")
  {
    QuoteOf(nv);
    assert Quote(nv) + ": " + "null" == "\"nullValue\": null";
    ShownMember(v, 2, "\"nullValue\": null");
  }

  /** `formatJSON({ emptyObj: {}, emptyArr: [], nullValue: null }, defaults)`
      keeps empty containers on one line. */
  lemma EmptyContainersExample(eo: string, ea: string, nv: string)
    requires eo == "emptyObj" && ea == "emptyArr" && nv == "nullValue"
    ensures Contains(FormatJson(Some(Obj([(eo, Obj([])), (ea, Arr([])), (nv, Null)])), DefaultFormattingOptions),
                     "\"emptyObj\": {}")
    ensures Contains(FormatJson(Some(Obj([(eo, Obj([])), (ea, Arr([])), (nv, Null)])), DefaultFormattingOptions),
                     "\"emptyArr\": []")
    ensures Contains(FormatJson(Some(Obj([(eo, Obj([])), (ea, Arr([])), (nv, Null)])), DefaultFormattingOptions),
                     "\"nullValue\": null")
  {
    var v := Obj([(eo, Obj([])), (ea, Arr([])), (nv, Null)]);
    ShowEmptyObj(v, eo);
    ShowEmptyArr(v, ea);
    ShowNull(v, nv);
  }

  /** A key of an object nested one or two members deep shows up in the
      serialization of the outer object. */
  lemma NestedKey(outer: Json, indent: string, mid: Json, key: string)
    requires outer.Obj? && |outer.fields| > 0 && outer.fields[0].1 == mid
    requires Contains(Ser(mid, indent + "  ", "  "), Quote(key))
    ensures Contains(Ser(outer, indent, "  "), Quote(key))
  {
    PrettyKeyValue(outer, indent, 0);
    ContainsTransitive(Ser(outer, indent, "  "), Ser(mid, indent + "  ", "  "), Quote(key));
  }

  /** The keys of all three levels of a nested object show up, quoted, in
      its pretty serialization. */
  lemma NestedKeys(u: string, p: string, n: string, e: string, x: Json, y: Json)
    ensures Contains(Ser(Obj([(u, Obj([(p, Obj([(n, x), (e, y)]))]))]), "", "  "), Quote(u))
    ensures Contains(Ser(Obj([(u, Obj([(p, Obj([(n, x), (e, y)]))]))]), "", "  "), Quote(p))
    ensures Contains(Ser(Obj([(u, Obj([(p, Obj([(n, x), (e, y)]))]))]), "", "  "), Quote(n))
  {
    var inner := Obj([(n, x), (e, y)]);
    var middle := Obj([(p, inner)]);
    var outer := Obj([(u, middle)]);
    assert "" + "  " == "  " && "  " + "  " == "    ";
    PrettyKeyValue(outer, "", 0);
    PrettyKeyValue(middle, "  ", 0);
    PrettyKeyValue(inner, "    ", 0);
    NestedKey(middle, "  ", inner, n);
    NestedKey(outer, "", middle, p);
    NestedKey(outer, "", middle, n);
  }

  lemma QuotedUserProfile(user: string, profile: string)
    requires user == "user" && profile == "profile"
    ensures Quote(user) == "\"user\"" && Quote(profile) == "\"profile\""
  {
    QuoteOf(user); QuoteOf(profile);
  }

  /** `formatJSON({ user: { profile: { name, email } } }, defaults)` contains
      the quoted keys of all three levels. */
  lemma NestedExample(user: string, profile: string, name: string, email: string, john: string, mail: string)
    requires user == "user" && profile == "profile" && name == "name"
    ensures Contains(FormatJson(Some(Obj([(user, Obj([(profile, Obj([(name, Str(john)), (email, Str(mail))]))]))])),
                                DefaultFormattingOptions), "\"user\"")
    ensures Contains(FormatJson(Some(Obj([(user, Obj([(profile, Obj([(name, Str(john)), (email, Str(mail))]))]))])),
                                DefaultFormattingOptions), "\"profile\"")
    ensures Contains(FormatJson(Some(Obj([(user, Obj([(profile, Obj([(name, Str(john)), (email, Str(mail))]))]))])),
                                DefaultFormattingOptions), "\"name\"")
  {
    DefaultPretty(Obj([(user, Obj([(profile, Obj([(name, Str(john)), (email, Str(mail))]))]))]));
    NestedKeys(user, profile, name, email, Str(john), Str(mail));
    QuotedUserProfile(user, profile);
    QuotedNameJohn(name, "John");
  }

  // ---------------------------------------------------------------------
  // Escapes

  /** `Hello "World"` is written with both quotes escaped. */
  lemma EscapeHello(hello: string, world: string)
    requires hello == "Hello " && world == "World"
    ensures EscapeString(hello + "\"" + world + "\"") == hello + "\\\"" + world + "\\\""
  {
    EscapePlain(hello);
    EscapePlain(world);
    EscapeStringAppend(hello + "\"" + world, "\"");
    EscapeStringAppend(hello + "\"", world);
    EscapeStringAppend(hello, "\"");
  }

  lemma EscapeBackslash(bs: string)
    requires bs == "\\"
    ensures EscapeString(bs) == "\\\\"
  {
    assert bs[1..] == "";
  }

  lemma EscapeDirectory(c: string, bs: string, users: string)
    requires c == "C:" && bs == "\\" && users == "Users"
    ensures EscapeString(c + bs + users + bs) == c + "\\\\" + users + "\\\\"
  {
    EscapePlain(c);
    EscapePlain(users);
    EscapeBackslash(bs);
    EscapeStringAppend(c + bs + users, bs);
    EscapeStringAppend(c + bs, users);
    EscapeStringAppend(c, bs);
  }

  /** `C:\Users\John` is written with each backslash doubled. */
  lemma EscapePath(c: string, users: string, john: string)
    requires c == "C:" && users == "Users" && john == "John"
    ensures EscapeString(c + "\\" + users + "\\" + john) == c + "\\\\" + users + "\\\\" + john
  {
    EscapeDirectory(c, "\\", users);
    EscapePlain(john);
    EscapeStringAppend(c + "\\" + users + "\\", john);
  }

  /** The escaped body of a string member shows up in the pretty output. */
  lemma PrettyEscaped(v: Json, k: nat)
    requires v.Obj? && k < |v.fields| && v.fields[k].1.Str?
    ensures Contains(Ser(v, "", "  "), EscapeString(v.fields[k].1.s))
  {
    var e := EscapeString(v.fields[k].1.s);
    PrettyKeyValue(v, "", k);
    ContainsSelf(e);
    ContainsWithin("\"", e, "\"", e);
    ContainsTransitive(Ser(v, "", "  "), Quote(v.fields[k].1.s), e);
  }

  /** `formatJSON({ message: 'Hello "World"', path: 'C:\\Users\\John' },
      defaults)` contains `Hello \"World\"` and `C:\\Users\\John`. */
  lemma EscapeExample(message: string, path: string, hello: string, world: string,
                      c: string, users: string, john: string)
    requires hello == "Hello " && world == "World" && c == "C:" && users == "Users" && john == "John"
    ensures Contains(FormatJson(Some(Obj([(message, Str(hello + "\"" + world + "\"")),
                                          (path, Str(c + "\\" + users + "\\" + john))])), DefaultFormattingOptions),
                     hello + "\\\"" + world + "\\\"")
    ensures Contains(FormatJson(Some(Obj([(message, Str(hello + "\"" + world + "\"")),
                                          (path, Str(c + "\\" + users + "\\" + john))])), DefaultFormattingOptions),
                     c + "\\\\" + users + "\\\\" + john)
  {
    var v := Obj([(message, Str(hello + "\"" + world + "\"")), (path, Str(c + "\\" + users + "\\" + john))]);
    DefaultPretty(v);
    PrettyEscaped(v, 0);
    PrettyEscaped(v, 1);
    EscapeHello(hello, world);
    EscapePath(c, users, john);
  }
}

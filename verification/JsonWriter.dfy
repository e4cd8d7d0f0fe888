/** The writer of messages as indented JSON, call by call. */
module JsonWriter {
  datatype Separator = COMMA | NEWLINE | NONE

  datatype Json =
    | Str(name: string, value: string)
    | Int(name: string, number: int)
    | Bool(name: string, flag: bool)
    | Null(name: string)
    | Obj(name: string, children: seq<Json>)
    | Arr(name: string, children: seq<Json>)

  datatype Writer = Writer(ss: string, ident: string, sep: Separator)

  // ----- what the text of a value is, line by line -----

  function Indent(depth: nat): (s: string)
    ensures |s| == 2 * depth && forall i :: 0 <= i < |s| ==> s[i] == ' '
  {
    if depth == 0 then [] else Indent(depth - 1) + "  "
  }

  function Label(name: string): string
  {
    if name == [] then [] else "\"" + name + "\": "
  }

  function Digits(n: nat): string
  {
    if n < 10 then [('0' as int + n) as char] else Digits(n / 10) + [('0' as int + n % 10) as char]
  }

  function Decimal(n: int): string
  {
    if n < 0 then "-" + Digits(-n) else Digits(n)
  }

  /** The text of a value that is not a container. */
  function Scalar(v: Json): string
    requires !v.Obj? && !v.Arr?
  {
    match v
    case Str(_, value) => "\"" + value + "\""
    case Int(_, number) => Decimal(number)
    case Bool(_, flag) => if flag then "true" else "false"
    case Null(_) => "null"
  }

  function Open(v: Json): string
  {
    if v.Obj? then "{" else "["
  }

  function Close(v: Json): string
  {
    if v.Obj? then "}" else "]"
  }

  /** The lines of a value at a depth: a container's brackets are at its depth, and its members one deeper. */
  function Lines(v: Json, depth: nat): (lines: seq<string>)
    ensures lines != []
    decreases v, 0
  {
    if v.Obj? || v.Arr?
    then [Indent(depth) + Label(v.name) + Open(v)] + Members(v.children, depth + 1) + [Indent(depth) + Close(v)]
    else [Indent(depth) + Label(v.name) + Scalar(v)]
  }

  /** The lines of several values: there is a comma behind each of them but the last. */
  function Members(vs: seq<Json>, depth: nat): (lines: seq<string>)
    ensures vs != [] ==> lines != []
    decreases vs, 1
  {
    if vs == [] then []
    else if |vs| == 1 then Lines(vs[0], depth)
    else WithComma(Lines(vs[0], depth)) + Members(vs[1..], depth)
  }

  function WithComma(lines: seq<string>): (r: seq<string>)
    requires lines != []
    ensures |r| == |lines|
  {
    lines[..|lines| - 1] + [lines[|lines| - 1] + ","]
  }

  function JoinLines(lines: seq<string>): string
  {
    if lines == [] then []
    else if |lines| == 1 then lines[0]
    else lines[0] + "\n" + JoinLines(lines[1..])
  }

  // ----- what the calls write -----

  function Lead(sep: Separator, ident: string): string
  {
    match sep
    case COMMA => ",\n" + ident
    case NEWLINE => "\n" + ident
    case NONE => []
  }

  function FieldName(w: Writer, name: string): Writer
  {
    Writer(w.ss + Lead(w.sep, w.ident) + Label(name), w.ident, NONE)
  }

  function Put(w: Writer, name: string, text: string): Writer
  {
    Writer(FieldName(w, name).ss + text, w.ident, COMMA)
  }

  function Start(w: Writer, name: string, bracket: string): Writer
  {
    Writer(FieldName(w, name).ss + bracket, w.ident + "  ", NEWLINE)
  }

  function End(w: Writer, bracket: string): Writer
    requires |w.ident| >= 2
  {
    var ident := w.ident[..|w.ident| - 2];
    Writer(w.ss + "\n" + ident + bracket, ident, COMMA)
  }

  /** What writing a value adds, without what separates it from its predecessor. */
  function Shown(v: Json, depth: nat): string
    decreases v, 0
  {
    if v.Obj? || v.Arr?
    then Label(v.name) + Open(v) + ShownAll(v.children, depth + 1, NEWLINE) + "\n" + Indent(depth) + Close(v)
    else Label(v.name) + Scalar(v)
  }

  /** What writing several values adds, when the writer's separator is sep. */
  function ShownAll(vs: seq<Json>, depth: nat, sep: Separator): string
    decreases vs, 1
  {
    if vs == [] then []
    else Lead(sep, Indent(depth)) + Shown(vs[0], depth) + ShownAll(vs[1..], depth, COMMA)
  }

  // ----- the class -----

  class JsonWriter {
    var ss: string
    var ident: string
    var sep: Separator

    function State(): Writer
      reads this
    {
      Writer(ss, ident, sep)
    }

    constructor ()
      ensures State() == Writer("", "", NONE)
    {
      ss, ident, sep := "", "", NONE;
    }

    method WriteFieldname(fieldname: string)
      modifies this
      ensures State() == FieldName(old(State()), fieldname)
    {
      if sep == COMMA {
        Assoc(ss, ",\n", ident);
        ss := ss + ",\n" + ident;
      } else if sep == NEWLINE {
        Assoc(ss, "\n", ident);
        ss := ss + "\n" + ident;
      }
      assert ss == old(ss) + Lead(old(sep), old(ident));
      if |fieldname| > 0 {
        LabelParts(ss, fieldname);
        ss := ss + "\"" + fieldname + "\": ";
      }
      sep := NONE;
    }

    method WriteStr(fieldname: string, value: string)
      modifies this
      ensures State() == Put(old(State()), fieldname, Scalar(Str(fieldname, value)))
    {
      WriteFieldname(fieldname);
      ss := ss + "\"" + value + "\"";
      sep := COMMA;
    }

    method WriteInt(fieldname: string, value: int)
      modifies this
      ensures State() == Put(old(State()), fieldname, Scalar(Int(fieldname, value)))
    {
      WriteFieldname(fieldname);
      ss := ss + Decimal(value);
      sep := COMMA;
    }

    method WriteBool(fieldname: string, value: bool)
      modifies this
      ensures State() == Put(old(State()), fieldname, Scalar(Bool(fieldname, value)))
    {
      WriteFieldname(fieldname);
      ss := ss + if value then "true" else "false";
      sep := COMMA;
    }

    method WriteNull(fieldname: string)
      modifies this
      ensures State() == Put(old(State()), fieldname, Scalar(Null(fieldname)))
    {
      WriteFieldname(fieldname);
      ss := ss + "null";
      sep := COMMA;
    }

    method StartObj(fieldname: string)
      modifies this
      ensures State() == Start(old(State()), fieldname, "{")
    {
      WriteFieldname(fieldname);
      ss := ss + "{";
      ident := ident + "  ";
      sep := NEWLINE;
    }

    method EndObj()
      requires |ident| >= 2
      modifies this
      ensures State() == End(old(State()), "}")
    {
      ident := ident[..|ident| - 2];
      ss := ss + "\n" + ident + "}";
      sep := COMMA;
    }

    method StartArray(fieldname: string)
      modifies this
      ensures State() == Start(old(State()), fieldname, "[")
    {
      WriteFieldname(fieldname);
      ss := ss + "[";
      ident := ident + "  ";
      sep := NEWLINE;
    }

    method EndArray()
      requires |ident| >= 2
      modifies this
      ensures State() == End(old(State()), "]")
    {
      ident := ident[..|ident| - 2];
      ss := ss + "\n" + ident + "]";
      sep := COMMA;
    }

    /** The calls that write a value. The indentation is back where it was. */
    method Write(v: Json, ghost depth: nat)
      requires ident == Indent(depth)
      modifies this
      ensures State() == Writer(old(ss) + Lead(old(sep), old(ident)) + Shown(v, depth), old(ident), COMMA)
      decreases v, 0
    {
      hide Lead, Scalar, Label, ShownAll, Indent;
      ghost var was := State();
      if !v.Obj? && !v.Arr? {
        ScalarShown(was, v, depth);
      } else {
        ContainerShown(was, v, depth);
      }
      match v {
        case Str(name, value) => WriteStr(name, value);
        case Int(name, number) => WriteInt(name, number);
        case Bool(name, flag) => WriteBool(name, flag);
        case Null(name) => WriteNull(name);
        case Obj(name, children) =>
          StartObj(name);
          IndentMore(depth);
          WriteAll(children, depth + 1);
          EndObj();
        case Arr(name, children) =>
          StartArray(name);
          IndentMore(depth);
          WriteAll(children, depth + 1);
          EndArray();
      }
    }

    method WriteAll(vs: seq<Json>, ghost depth: nat)
      requires ident == Indent(depth)
      modifies this
      ensures State() == Writer(old(ss) + ShownAll(vs, depth, old(sep)), old(ident),
                                if vs == [] then old(sep) else COMMA)
      decreases vs, 1
    {
      hide Lead, Shown, ShownAll, Indent;
      ghost var was := State();
      var i := 0;
      assert vs[0..] == vs;
      while i < |vs|
        invariant i <= |vs| && ident == was.ident && sep == if i == 0 then was.sep else COMMA
        invariant ss + ShownAll(vs[i..], depth, sep) == was.ss + ShownAll(vs, depth, was.sep)
      {
        ghost var w := State();
        ShownFirst(w, vs[i..], depth);
        assert vs[i..][1..] == vs[i + 1..];
        Write(vs[i], depth);
        i := i + 1;
      }
      NothingShown(depth, sep);
      assert vs[i..] == [];
    }
  }

  lemma Assoc(x: string, y: string, z: string)
    ensures (x + y) + z == x + (y + z)
  {
  }

  lemma LabelParts(x: string, name: string)
    requires name != []
    ensures x + "\"" + name + "\": " == x + Label(name)
  {
    Assoc(x, "\"", name);
    Assoc(x, "\"" + name, "\": ");
  }

  lemma IndentMore(depth: nat)
    ensures Indent(depth + 1) == Indent(depth) + "  " && Indent(depth + 1)[..2 * depth] == Indent(depth)
  {
  }

  lemma NothingShown(depth: nat, sep: Separator)
    ensures ShownAll([], depth, sep) == ""
  {
  }

  lemma ShownFirst(w: Writer, vs: seq<Json>, depth: nat)
    requires vs != []
    ensures (w.ss + Lead(w.sep, Indent(depth)) + Shown(vs[0], depth)) + ShownAll(vs[1..], depth, COMMA)
            == w.ss + ShownAll(vs, depth, w.sep)
  {
    hide Shown, Lead;
    var lead, first, rest := Lead(w.sep, Indent(depth)), Shown(vs[0], depth), ShownAll(vs[1..], depth, COMMA);
    Assoc(w.ss, lead, first);
    Assoc(w.ss, lead + first, rest);
  }

  lemma ScalarShown(w: Writer, v: Json, depth: nat)
    requires !v.Obj? && !v.Arr?
    ensures Put(w, v.name, Scalar(v)).ss == w.ss + Lead(w.sep, w.ident) + Shown(v, depth)
  {
    hide Lead, Scalar, Label;
    Assoc(w.ss + Lead(w.sep, w.ident), Label(v.name), Scalar(v));
  }

  lemma ContainerShown(w: Writer, v: Json, depth: nat)
    requires (v.Obj? || v.Arr?) && w.ident == Indent(depth)
    ensures var inner := ShownAll(v.children, depth + 1, NEWLINE);
            ((Start(w, v.name, Open(v)).ss + inner) + "\n" + w.ident) + Close(v)
            == w.ss + Lead(w.sep, w.ident) + Shown(v, depth)
  {
    hide Lead, Label, ShownAll, Indent, Open, Close;
    var x, a, b := w.ss + Lead(w.sep, w.ident), Label(v.name), Open(v);
    var c, d, e := ShownAll(v.children, depth + 1, NEWLINE), "\n", Indent(depth);
    Assoc(x, a, b);
    Assoc(x, a + b, c);
    Assoc(x, a + b + c, d);
    Assoc(x, a + b + c + d, e);
    Assoc(x, a + b + c + d + e, Close(v));
  }

  // ----- what is written is the layout -----

  lemma {:induction false} JoinConcat(x: seq<string>, y: seq<string>)
    requires x != [] && y != []
    ensures JoinLines(x + y) == JoinLines(x) + "\n" + JoinLines(y)
  {
    if |x| == 1 {
      assert (x + y)[1..] == y;
    } else {
      JoinConcat(x[1..], y);
      assert (x + y)[1..] == x[1..] + y;
      Assoc(x[0] + "\n", JoinLines(x[1..]), "\n");
      Assoc(x[0] + "\n", JoinLines(x[1..]) + "\n", JoinLines(y));
    }
  }

  lemma {:induction false} JoinComma(lines: seq<string>)
    requires lines != []
    ensures JoinLines(WithComma(lines)) == JoinLines(lines) + ","
  {
    var last := |lines| - 1;
    var z := lines[last];
    if last == 0 {
      assert WithComma(lines) == [z + ","];
    } else {
      assert lines == lines[..last] + [z];
      JoinConcat(lines[..last], [z]);
      JoinConcat(lines[..last], [z + ","]);
      Assoc(JoinLines(lines[..last]) + "\n", z, ",");
    }
  }

  /** A value is shown as its lines, the indentation of the first aside. */
  lemma {:induction false} ShownIsLines(v: Json, depth: nat)
    ensures Indent(depth) + Shown(v, depth) == JoinLines(Lines(v, depth))
    decreases v, 0
  {
    hide Label, Scalar, Open, Close, Indent, ShownAll, Members, Lead;
    var ind, lab := Indent(depth), Label(v.name);
    if v.Obj? || v.Arr? {
      ContainerLines(v, depth);
    } else {
      Assoc(ind, lab, Scalar(v));
    }
  }

  /** What follows the opening bracket, before the closing one. */
  function Inner(lines: seq<string>): string
  {
    if lines == [] then "" else "\n" + JoinLines(lines)
  }

  lemma {:induction false} JoinBrackets(first: string, lines: seq<string>, last: string)
    ensures JoinLines([first] + lines + [last]) == first + Inner(lines) + "\n" + last
  {
    hide JoinLines;
    JoinOne(first);
    JoinOne(last);
    JoinConcat([first] + lines, [last]);
    if lines == [] {
      assert [first] + lines == [first];
    } else {
      JoinConcat([first], lines);
      Assoc(first, "\n", JoinLines(lines));
    }
  }

  lemma JoinOne(line: string)
    ensures JoinLines([line]) == line
  {
  }

  lemma BracketStrings(ind: string, lab: string, open: string, inner: string, close: string)
    ensures ind + (lab + open + inner + "\n" + ind + close) == (ind + lab + open) + inner + "\n" + (ind + close)
  {
    Assoc(ind, lab, open);
    Assoc(ind, lab + open, inner);
    Assoc(ind, lab + open + inner, "\n");
    Assoc(ind, lab + open + inner + "\n", ind);
    Assoc(ind, lab + open + inner + "\n" + ind, close);
    Assoc(ind + lab + open + inner + "\n", ind, close);
  }

  lemma {:induction false} ContainerLines(v: Json, depth: nat)
    requires v.Obj? || v.Arr?
    ensures Indent(depth) + Shown(v, depth) == JoinLines(Lines(v, depth))
    decreases v.children, 2
  {
    hide Label, Open, Close, Indent, Lead, JoinLines;
    var ind, lines := Indent(depth), Members(v.children, depth + 1);
    if v.children == [] {
      NothingShown(depth + 1, NEWLINE);
    } else {
      MembersShown(v.children, depth + 1);
    }
    hide Members, ShownAll;
    JoinBrackets(ind + Label(v.name) + Open(v), lines, ind + Close(v));
    BracketStrings(ind, Label(v.name), Open(v), Inner(lines), Close(v));
  }

  lemma MemberStrings(pre: string, ind: string, shown: string, rest: string)
    ensures ((pre + ind) + shown) + (",\n" + rest) == pre + (((ind + shown) + ",") + "\n" + rest)
    ensures (pre + ind) + shown == pre + (ind + shown)
  {
    Assoc(pre, ind, shown);
    Assoc(pre, ind + shown, ",\n" + rest);
    Assoc(ind + shown, ",", "\n");
    Assoc(ind + shown, ",\n", rest);
    assert ",\n" == "," + "\n";
  }

  lemma {:induction false} MembersShown(vs: seq<Json>, depth: nat)
    requires vs != []
    ensures ShownAll(vs, depth, NEWLINE) == "\n" + JoinLines(Members(vs, depth))
    ensures ShownAll(vs, depth, COMMA) == ",\n" + JoinLines(Members(vs, depth))
    decreases vs, 1
  {
    hide Indent, Shown, Lines, JoinLines;
    var ind, shown := Indent(depth), Shown(vs[0], depth);
    ShownIsLines(vs[0], depth);
    if |vs| > 1 {
      var rest := JoinLines(Members(vs[1..], depth));
      MembersShown(vs[1..], depth);
      JoinComma(Lines(vs[0], depth));
      JoinConcat(WithComma(Lines(vs[0], depth)), Members(vs[1..], depth));
      MemberStrings("\n", ind, shown, rest);
      MemberStrings(",\n", ind, shown, rest);
    } else {
      assert vs[1..] == [];
      MemberStrings("\n", ind, shown, "");
      MemberStrings(",\n", ind, shown, "");
    }
  }

  /** A writer driven over some values writes exactly their indented layout, whatever they contain: their lines,
      with one comma between siblings and none elsewhere, and indented by twice the depth. */
  method WriteDocument(vs: seq<Json>) returns (text: string)
    ensures text == JoinLines(Members(vs, 0))
  {
    hide JoinLines, Members, ShownAll;
    var j := new JsonWriter();
    Undented(vs);
    j.WriteAll(vs, 0);
    text := j.ss;
  }

  lemma Undented(vs: seq<Json>)
    ensures Indent(0) == "" && "" + ShownAll(vs, 0, NONE) == JoinLines(Members(vs, 0))
  {
    if vs != [] {
      MembersShown(vs, 0);
      UndentedStart(ShownAll(vs, 0, NONE), ShownAll(vs, 0, NEWLINE), JoinLines(Members(vs, 0)), vs);
    }
  }

  lemma UndentedStart(none: string, newline: string, text: string, vs: seq<Json>)
    requires vs != [] && none == ShownAll(vs, 0, NONE) && newline == ShownAll(vs, 0, NEWLINE) && newline == "\n" + text
    ensures none == text
  {
    hide Shown;
    var shown, rest := Shown(vs[0], 0), ShownAll(vs[1..], 0, COMMA);
    assert none == shown + rest;
    assert newline == "\n" + (shown + rest);
    assert newline[1..] == none && ("\n" + text)[1..] == text;
  }

  // ----- what the text shows -----

  predicate AllDigits(s: string)
  {
    forall i :: 0 <= i < |s| ==> '0' <= s[i] <= '9'
  }

  /** The number that decimal digits spell, read from left to right. */
  function ReadDigits(s: string, sofar: nat): nat
    requires AllDigits(s)
  {
    if s == [] then sofar else ReadDigits(s[1..], 10 * sofar + (s[0] as int - '0' as int))
  }

  /** A number with a minus in front of it or not. */
  predicate IsNumber(s: string)
  {
    s != [] && if s[0] == '-' then AllDigits(s[1..]) else AllDigits(s)
  }

  function ReadNumber(s: string): int
    requires IsNumber(s)
  {
    if s[0] == '-' then 0 - ReadDigits(s[1..], 0) else ReadDigits(s, 0)
  }

  lemma {:induction false} ReadOneMore(s: string, c: char, sofar: nat)
    requires AllDigits(s) && '0' <= c <= '9'
    ensures AllDigits(s + [c])
    ensures ReadDigits(s + [c], sofar) == 10 * ReadDigits(s, sofar) + (c as int - '0' as int)
  {
    if s == [] {
      assert [c][1..] == [] && s + [c] == [c];
    } else {
      assert (s + [c])[1..] == s[1..] + [c];
      ReadOneMore(s[1..], c, 10 * sofar + (s[0] as int - '0' as int));
    }
  }

  lemma {:induction false} DigitsRead(n: nat)
    ensures var s := Digits(n); s != [] && AllDigits(s) && ReadDigits(s, 0) == n && (s[0] == '0' <==> n == 0)
    ensures Digits(n)[0] == '0' ==> |Digits(n)| == 1
  {
    if n >= 10 {
      DigitsRead(n / 10);
      ReadOneMore(Digits(n / 10), ('0' as int + n % 10) as char, 0);
    } else {
      assert [('0' as int + n) as char][1..] == [];
    }
  }

  /** An integer is shown as the number that it is: its digits read back, there is a minus in front exactly of the
      negative ones, and no zero in front of other digits. */
  lemma {:induction false} DecimalReads(n: int)
    ensures var s := Decimal(n);
            && IsNumber(s) && ReadNumber(s) == n
            && (s[0] == '-' <==> n < 0) && (s[0] == '0' <==> n == 0) && (n == 0 ==> s == "0")
            && (n < 0 ==> s[1] != '0')
  {
    DigitsRead(if n < 0 then -n else n);
    if n < 0 {
      assert ("-" + Digits(-n))[1..] == Digits(-n);
    }
  }

  /** A value that is no container, as it is shown. */
  lemma {:induction false} ShownScalars(name: string, value: string)
    ensures Label("") == "" && (name != "" ==> Label(name) == "\"" + name + "\": ")
    ensures Scalar(Str(name, value)) == "\"" + value + "\""
    ensures Scalar(Bool(name, true)) == "true" && Scalar(Bool(name, false)) == "false" && Scalar(Null(name)) == "null"
    ensures Scalar(Int(name, -120)) == "-120"
  {
    assert Digits(120) == Digits(12) + ['0'] && Digits(12) == Digits(1) + ['2'] && Digits(1) == ['1'];
  }

  lemma {:induction false} LineOf(v: Json, text: string, depth: nat)
    requires !v.Obj? && !v.Arr? && v.name == "" && text == Scalar(v)
    ensures Lines(v, depth) == [Indent(depth) + text]
  {
    hide Scalar, Indent;
    assert Indent(depth) + "" + text == Indent(depth) + text;
  }

  lemma {:induction false} TwoMembers(v: Json, w: Json, depth: nat)
    ensures Members([v, w], depth) == WithComma(Lines(v, depth)) + Lines(w, depth)
  {
    hide Lines;
    assert [v, w][1..] == [w];
  }

  lemma {:induction false} BracketLines(v: Json, depth: nat, inner: seq<string>)
    requires (v.Obj? || v.Arr?) && v.name == "" && Members(v.children, depth + 1) == inner
    ensures Lines(v, depth)
            == if v.Obj? then [Indent(depth) + "{"] + inner + [Indent(depth) + "}"]
               else [Indent(depth) + "["] + inner + [Indent(depth) + "]"]
  {
    hide Indent, Members;
    assert Indent(depth) + "" == Indent(depth);
    NoLabel();
  }

  /** Brackets and the indentation between them, as they are shown. */
  lemma {:induction false} ShownObject()
    ensures Lines(Obj("", [Null("")]), 0) == ["{", "  null", "}"]
  {
    assert Indent(0) == "" && Indent(1) == "  ";
    ShownScalars("", "");
    LineOf(Null(""), "null", 1);
    hide Scalar, Label, Indent, Lines;
    assert "" + "{" == "{" && "  " + "null" == "  null" && "" + "}" == "}";
    BracketLines(Obj("", [Null("")]), 0, ["  null"]);
    assert ["{"] + ["  null"] + ["}"] == ["{", "  null", "}"];
  }

  lemma {:induction false} ShownArray()
    ensures Lines(Arr("", []), 1) == ["  [", "  ]"]
  {
    assert Indent(1) == "  ";
    hide Label, Indent, Lines;
    BracketLines(Arr("", []), 1, []);
    assert "  " + "[" == "  [" && "  " + "]" == "  ]";
  }

  /** The comma between siblings and the line break, as they are shown. */
  lemma {:induction false} ShownSiblings()
    ensures Members([Null(""), Null("")], 0) == ["null,", "null"]
    ensures JoinLines(["[", "]"]) == "[\n]"
  {
    assert Indent(0) == "";
    ShownScalars("", "");
    LineOf(Null(""), "null", 0);
    hide Scalar, Label, Indent, Lines;
    TwoMembers(Null(""), Null(""), 0);
    assert "" + "null" == "null" && "null" + "," == "null,";
    assert [] + ["null,"] == ["null,"] == WithComma(["null"]);
  }

  /** A name that is written ahead of its value has the same effect as one that is passed with it. */
  lemma NameFirst(w: Writer, name: string, text: string)
    ensures Put(FieldName(w, name), "", text) == Put(w, name, text)
    ensures Start(FieldName(w, name), "", text) == Start(w, name, text)
  {
    hide Label;
    assert Label("") == "" by { NoLabel(); }
    var ss := FieldName(w, name).ss;
    assert ss + "" + "" == ss;
  }

  lemma NoLabel()
    ensures Label("") == ""
  {
  }
}

/** The printer as it runs: an output buffer appended to by loops. */
module JsonPrinter {
  import opened Json

  class Printer {
    var out: string
    const indent: int

    constructor (indent: int)
      ensures out == "" && this.indent == indent
    {
      this.indent := indent;
      out := "";
    }

    method WriteIndent(level: nat)
      modifies this`out
      ensures out == old(out) + LineBreak(indent, level)
    {
      if indent > 0 {
        out := out + "\n";
        out := out + Spaces(indent * level);
      }
    }

    method AppendEscaped(value: string)
      modifies this`out
      ensures out == old(out) + Quoted(value)
    {
      out := out + "\"";
      for i := 0 to |value|
        invariant out + (EscapeText(value[i..]) + "\"") == old(out) + Quoted(value)
      {
        hide EscapeChar;
        assert value[i..][1..] == value[i + 1..];
        Associates(EscapeChar(value[i]), EscapeText(value[i + 1..]), "\"");
        Associates(out, EscapeChar(value[i]), EscapeText(value[i + 1..]) + "\"");
        out := out + EscapeChar(value[i]);
      }
      assert EscapeText(value[|value|..]) + "\"" == "\"";
      out := out + "\"";
    }

    /** What is still to be written of some items, `i` of them done. */
    function ItemsLeft(items: seq<Value>, i: nat, level: nat): string
      requires i <= |items| && forall j :: 0 <= j < |items| ==> AllExact(items[j])
    {
      if i == |items| then ""
      else (if i == 0 then "" else ",") + DumpItems(items[i..], indent, level)
    }

    function MembersLeft(members: seq<Member>, i: nat, level: nat): string
      requires i <= |members| && forall j :: 0 <= j < |members| ==> AllExact(members[j].value)
    {
      if i == |members| then ""
      else (if i == 0 then "" else ",") + DumpMembers(members[i..], indent, level)
    }

    /** One item with the comma and the line break in front of it. */
    function ItemText(items: seq<Value>, i: nat, level: nat): string
      requires i < |items| && AllExact(items[i])
    {
      (if i == 0 then "" else ",") + (LineBreak(indent, level + 1) + Dump(items[i], indent, level + 1))
    }

    function MemberText(members: seq<Member>, i: nat, level: nat): string
      requires i < |members| && AllExact(members[i].value)
    {
      (if i == 0 then "" else ",")
      + (LineBreak(indent, level + 1) + (Quoted(members[i].key) + (Colon(indent) + Dump(members[i].value, indent,
          level + 1))))
    }

    lemma NextItem(items: seq<Value>, i: nat, level: nat)
      requires i < |items| && forall j :: 0 <= j < |items| ==> AllExact(items[j])
      ensures ItemsLeft(items, i, level) == ItemText(items, i, level) + ItemsLeft(items, i + 1, level)
    {
      hide Dump, LineBreak, AllExact;
      assert items[i..][1..] == items[i + 1..];
    }

    lemma NextMember(members: seq<Member>, i: nat, level: nat)
      requires i < |members| && forall j :: 0 <= j < |members| ==> AllExact(members[j].value)
      ensures MembersLeft(members, i, level) == MemberText(members, i, level) + MembersLeft(members, i + 1, level)
    {
      hide Dump, LineBreak, AllExact, Quoted, Colon;
      assert members[i..][1..] == members[i + 1..];
      var comma := if i == 0 then "" else ",";
      var member := LineBreak(indent, level + 1)
                    + (Quoted(members[i].key) + (Colon(indent) + Dump(members[i].value, indent, level + 1)));
      FiveInARow(LineBreak(indent, level + 1), Quoted(members[i].key), Colon(indent),
                 Dump(members[i].value, indent, level + 1), MembersLeft(members, i + 1, level));
      assert DumpMembers(members[i..], indent, level) == member + MembersLeft(members, i + 1, level);
      Associates(comma, member, MembersLeft(members, i + 1, level));
    }

    /** At the start everything is left, at the end nothing. */
    lemma AllItems(items: seq<Value>, level: nat)
      requires items != [] && forall j :: 0 <= j < |items| ==> AllExact(items[j])
      ensures ItemsLeft(items, 0, level) == DumpItems(items, indent, level) && ItemsLeft(items, |items|, level) == ""
    {
      hide Dump, LineBreak, AllExact;
      assert items[0..] == items;
    }

    lemma AllMembers(members: seq<Member>, level: nat)
      requires members != [] && forall j :: 0 <= j < |members| ==> AllExact(members[j].value)
      ensures MembersLeft(members, 0, level) == DumpMembers(members, indent, level)
      ensures MembersLeft(members, |members|, level) == ""
    {
      hide Dump, LineBreak, AllExact, Quoted, Colon;
      assert members[0..] == members;
    }

    method DumpTo(v: Value, level: nat)
      requires AllExact(v)
      modifies this`out
      ensures out == old(out) + Dump(v, indent, level)
      decreases v, 1, 0
    {
      match v {
        case Null => out := out + "null";
        case Bool(truth) => out := out + if truth then "true" else "false";
        case Number(n) => out := out + IntText(n);
        case String(text) => AppendEscaped(text);
        case Array(items) =>
          if items == [] {
            out := out + "[]";
          } else {
            DumpArray(items, level);
          }
        case Object(members) =>
          if members == [] {
            out := out + "{}";
          } else {
            DumpObject(members, level);
          }
      }
    }

    method DumpArray(items: seq<Value>, level: nat)
      requires items != [] && forall j :: 0 <= j < |items| ==> AllExact(items[j])
      modifies this`out
      ensures out == old(out) + ("[" + DumpItems(items, indent, level) + LineBreak(indent, level) + "]")
      decreases items, 0, 1
    {
      hide Dump, LineBreak, DumpItems, AllExact, ItemsLeft, ItemText;
      out := out + "[";
      ghost var begun := out;
      AllItems(items, level);
      for i := 0 to |items|
        invariant out + ItemsLeft(items, i, level) == begun + DumpItems(items, indent, level)
      {
        NextItem(items, i, level);
        Associates(out, ItemText(items, i, level), ItemsLeft(items, i + 1, level));
        DumpItem(items, i, level);
      }
      assert out + "" == out;
      ghost var body := DumpItems(items, indent, level);
      WriteIndent(level);
      out := out + "]";
      Bracketed(old(out), "[", body, LineBreak(indent, level), "]");
    }

    method DumpItem(items: seq<Value>, i: nat, level: nat)
      requires i < |items| && AllExact(items[i])
      modifies this`out
      ensures out == old(out) + ItemText(items, i, level)
      decreases items, 0, 0
    {
      hide Dump, LineBreak, AllExact;
      if i != 0 { out := out + ","; }
      WriteIndent(level + 1);
      DumpTo(items[i], level + 1);
    }

    method DumpObject(members: seq<Member>, level: nat)
      requires members != [] && forall j :: 0 <= j < |members| ==> AllExact(members[j].value)
      modifies this`out
      ensures out == old(out) + ("{" + DumpMembers(members, indent, level) + LineBreak(indent, level) + "}")
      decreases members, 0, 1
    {
      hide Dump, LineBreak, DumpMembers, AllExact, Quoted, Colon, MembersLeft, MemberText;
      out := out + "{";
      ghost var begun := out;
      AllMembers(members, level);
      for i := 0 to |members|
        invariant out + MembersLeft(members, i, level) == begun + DumpMembers(members, indent, level)
      {
        NextMember(members, i, level);
        Associates(out, MemberText(members, i, level), MembersLeft(members, i + 1, level));
        DumpMember(members, i, level);
      }
      assert out + "" == out;
      ghost var body := DumpMembers(members, indent, level);
      WriteIndent(level);
      out := out + "}";
      Bracketed(old(out), "{", body, LineBreak(indent, level), "}");
    }

    method DumpMember(members: seq<Member>, i: nat, level: nat)
      requires i < |members| && AllExact(members[i].value)
      modifies this`out
      ensures out == old(out) + MemberText(members, i, level)
      decreases members, 0, 0
    {
      hide Dump, LineBreak, AllExact, Quoted, Colon;
      if i != 0 { out := out + ","; }
      WriteIndent(level + 1);
      AppendEscaped(members[i].key);
      out := out + Colon(indent);
      DumpTo(members[i].value, level + 1);
    }
  }

  lemma Bracketed(before: string, left: string, body: string, space: string, right: string)
    ensures before + left + body + space + right == before + (left + body + space + right)
  {
  }

  /** Five parts in a row, grouped from either end. */
  lemma FiveInARow(a: string, b: string, c: string, d: string, e: string)
    ensures a + b + c + d + e == (a + (b + (c + d))) + e
  {
  }

  lemma Associates(a: string, b: string, c: string)
    ensures (a + b) + c == a + (b + c)
  {
  }
}

/** `escape_for_zookeeper` and `unescape_from_zookeeper`: table names as names of ZooKeeper nodes. */
module Escape {
  import opened Text
  import opened Wrappers

  /** What Python says of characters: `isalnum`, and `chr(int(s, 16))` of two characters. */
  datatype Python = Python(isAlnum: char -> bool, decode: (char, char) -> Option<char>) {
    ghost predicate Valid() {
      && !isAlnum('%') && !isAlnum('/')
      && (forall d :: 0 <= d < 16 ==> isAlnum("0123456789ABCDEF"[d]))
      && (forall a, b :: 0 <= a < 16 && 0 <= b < 16 ==>
            decode("0123456789ABCDEF"[a], "0123456789ABCDEF"[b]) == Some((16 * a + b) as char))
    }

    predicate Kept(c: char) {
      isAlnum(c) || c == '_'
    }
  }

  // ---------------------------------------------------------------- specification

  function HexDigit(d: int): char
    requires 0 <= d < 16
  {
    "0123456789ABCDEF"[d]
  }

  /** `f"{n:X}"` */
  function Hex(n: nat): (s: string)
    ensures |s| >= 1 && (n >= 16 ==> |s| >= 2)
    ensures n < 16 ==> s == [HexDigit(n)]
  {
    if n < 16 then [HexDigit(n)] else Hex(n / 16) + [HexDigit(n % 16)]
  }

  function EscapedChar(c: char, py: Python): string {
    if py.Kept(c) then [c] else "%" + Hex(c as int / 16) + Hex(c as int % 16)
  }

  function Escaped(s: string, py: Python): string {
    if s == "" then "" else EscapedChar(s[0], py) + Escaped(s[1..], py)
  }

  function Unescaped(s: string, py: Python): string {
    if s == "" then ""
    else if s[0] == '%' && |s| > 2 && py.decode(s[1], s[2]).Some? then
      [py.decode(s[1], s[2]).value] + Unescaped(s[3..], py)
    else [s[0]] + Unescaped(s[1..], py)
  }

  // ---------------------------------------------------------------- the code

  method EscapeForZooKeeper(s: string, py: Python) returns (result: string)
    ensures result == Escaped(s, py)
  {
    result := "";
    assert s[0..] == s;
    for i := 0 to |s|
      invariant result + Escaped(s[i..], py) == Escaped(s, py)
    {
      ghost var before, rest := result, Escaped(s[i + 1..], py);
      assert s[i..][0] == s[i] && s[i..][1..] == s[i + 1..];
      var piece;
      if py.isAlnum(s[i]) || s[i] == '_' {
        piece := [s[i]];
      } else {
        var code := s[i] as int;
        piece := "%" + Hex(code / 16) + Hex(code % 16);
      }
      assert piece == EscapedChar(s[i], py);
      Regroup(before, piece, rest);
      result := result + piece;
    }
  }

  lemma Regroup(a: string, b: string, c: string)
    ensures a + (b + c) == a + b + c
  {
  }

  lemma {:induction false} UnescapedStep(s: string, i: nat, py: Python)
    requires i < |s|
    ensures var rest := Unescaped(s[i..], py);
            if s[i] == '%' && i + 2 < |s| && py.decode(s[i + 1], s[i + 2]).Some? then
              rest == [py.decode(s[i + 1], s[i + 2]).value] + Unescaped(s[i + 3..], py)
            else
              rest == [s[i]] + Unescaped(s[i + 1..], py)
  {
    var rest := s[i..];
    assert rest[1..] == s[i + 1..];
    if i + 2 < |s| {
      assert rest[1] == s[i + 1] && rest[2] == s[i + 2] && rest[3..] == s[i + 3..];
    }
  }

  method UnescapeFromZooKeeper(s: string, py: Python) returns (result: string)
    ensures result == Unescaped(s, py)
  {
    result := "";
    var i := 0;
    assert s[0..] == s;
    while i < |s|
      invariant 0 <= i <= |s|
      invariant result + Unescaped(s[i..], py) == Unescaped(s, py)
    {
      UnescapedStep(s, i, py);
      if s[i] == '%' && i + 2 < |s| {
        var decoded := py.decode(s[i + 1], s[i + 2]);
        if decoded.Some? {
          Regroup(result, [decoded.value], Unescaped(s[i + 3..], py));
          result := result + [decoded.value];
          i := i + 3;
        } else {
          Regroup(result, [s[i]], Unescaped(s[i + 1..], py));
          result := result + [s[i]];
          i := i + 1;
        }
      } else {
        Regroup(result, [s[i]], Unescaped(s[i + 1..], py));
        result := result + [s[i]];
        i := i + 1;
      }
    }
  }

  // ---------------------------------------------------------------- what an escaped name looks like

  /** Names are escaped one part after the other. */
  lemma {:induction false} EscapedConcat(a: string, b: string, py: Python)
    ensures Escaped(a + b, py) == Escaped(a, py) + Escaped(b, py)
  {
    if a == "" {
      assert a + b == b;
    } else {
      assert (a + b)[1..] == a[1..] + b;
      EscapedConcat(a[1..], b, py);
      Regroup(EscapedChar(a[0], py), Escaped(a[1..], py), Escaped(b, py));
    }
  }

  /** A character: kept if it is a letter, a digit or an underscore, else the percent sign and its code in capitals. */
  lemma {:induction false} EscapedOne(c: char, py: Python)
    ensures py.isAlnum(c) || c == '_' ==> Escaped([c], py) == [c]
    ensures !py.isAlnum(c) && c != '_' && c as int < 256 ==>
              Escaped([c], py) == ['%', "0123456789ABCDEF"[c as int / 16], "0123456789ABCDEF"[c as int % 16]]
  {
    assert [c][1..] == "";
  }

  lemma {:induction false} EscapedLonger(s: string, py: Python)
    ensures |Escaped(s, py)| >= |s|
    ensures (exists i :: 0 <= i < |s| && !py.isAlnum(s[i]) && s[i] != '_') ==> |Escaped(s, py)| > |s|
  {
    if s != "" {
      EscapedLonger(s[1..], py);
      assert |EscapedChar(s[0], py)| >= 1;
      if i :| 0 < i < |s| && !py.isAlnum(s[i]) && s[i] != '_' {
        assert s[1..][i - 1] == s[i];
      }
    }
  }

  lemma {:induction false} KeptStays(s: string, py: Python)
    requires forall i :: 0 <= i < |s| ==> py.isAlnum(s[i]) || s[i] == '_'
    ensures Escaped(s, py) == s
  {
    if s != "" {
      KeptStays(s[1..], py);
      assert s == [s[0]] + s[1..];
    }
  }

  /** A name stays as it is exactly when it consists of letters, digits and underscores. */
  lemma {:induction false} LeftAloneIff(s: string, py: Python)
    ensures Escaped(s, py) == s <==> forall i :: 0 <= i < |s| ==> py.isAlnum(s[i]) || s[i] == '_'
  {
    if forall i :: 0 <= i < |s| ==> py.isAlnum(s[i]) || s[i] == '_' {
      KeptStays(s, py);
    } else {
      EscapedLonger(s, py);
    }
  }

  // ---------------------------------------------------------------- round trip

  /** Every character that is not kept has a code that two hexadecimal digits can show. */
  predicate Narrow(s: string, py: Python) {
    forall i :: 0 <= i < |s| ==> py.Kept(s[i]) || s[i] as int < 256
  }

  lemma {:induction false} HexIsAlnum(n: nat, py: Python)
    requires py.Valid()
    ensures forall i :: 0 <= i < |Hex(n)| ==> py.isAlnum(Hex(n)[i])
  {
    if n >= 16 {
      HexIsAlnum(n / 16, py);
    }
  }

  lemma {:induction false} NarrowChar(c: char, t: string, py: Python)
    requires py.Valid() && (py.Kept(c) || c as int < 256)
    ensures Unescaped(EscapedChar(c, py) + t, py) == [c] + Unescaped(t, py)
  {
    var s := EscapedChar(c, py) + t;
    if py.Kept(c) {
      assert s[1..] == t;
    } else {
      var a, b := c as int / 16, c as int % 16;
      assert s == ['%', HexDigit(a), HexDigit(b)] + t;
      assert s[3..] == t;
      assert py.decode(s[1], s[2]) == Some((16 * a + b) as char);
    }
  }

  lemma {:induction false} RoundTrip(s: string, py: Python)
    requires py.Valid() && Narrow(s, py)
    ensures Unescaped(Escaped(s, py), py) == s
  {
    if s != "" {
      NarrowChar(s[0], Escaped(s[1..], py), py);
      RoundTrip(s[1..], py);
    }
  }

  /** Text without a percent sign is left as it is. */
  lemma {:induction false} LiteralStays(u: string, t: string, py: Python)
    requires '%' !in u
    ensures Unescaped(u + t, py) == u + Unescaped(t, py)
  {
    if u == "" {
      assert u + t == t;
    } else {
      assert (u + t)[1..] == u[1..] + t;
      LiteralStays(u[1..], t, py);
    }
  }

  /** A wide character comes back as more than one. */
  lemma {:induction false} WideChar(c: char, t: string, py: Python)
    requires py.Valid() && !py.Kept(c) && c as int >= 256
    ensures |Unescaped(EscapedChar(c, py) + t, py)| > 1 + |Unescaped(t, py)|
  {
    var digits := Hex(c as int / 16) + Hex(c as int % 16);
    HexIsAlnum(c as int / 16, py);
    HexIsAlnum(c as int % 16, py);
    var s, rest := EscapedChar(c, py) + t, digits[2..];
    assert s == "%" + digits + t && s[1] == digits[0] && s[2] == digits[1];
    assert s[3..] == rest + t && s[1..] == digits + t;
    assert forall i :: 0 <= i < |digits| ==> py.isAlnum(digits[i]);
    LiteralStays(rest, t, py);
    LiteralStays(digits, t, py);
  }

  lemma {:induction false} NeverShorter(s: string, py: Python)
    requires py.Valid()
    ensures |Unescaped(Escaped(s, py), py)| >= |s|
    ensures !Narrow(s, py) ==> |Unescaped(Escaped(s, py), py)| > |s|
  {
    if s != "" {
      var c, rest := s[0], s[1..];
      NeverShorter(rest, py);
      if py.Kept(c) || c as int < 256 {
        NarrowChar(c, Escaped(rest, py), py);
        assert Narrow(rest, py) ==> Narrow(s, py);
      } else {
        WideChar(c, Escaped(rest, py), py);
      }
    }
  }

  /** A name survives the round trip exactly when every escaped character fits two digits. */
  lemma {:induction false} RoundTripIff(s: string, py: Python)
    requires py.Valid()
    ensures Unescaped(Escaped(s, py), py) == s <==> Narrow(s, py)
  {
    if Narrow(s, py) {
      RoundTrip(s, py);
    } else {
      NeverShorter(s, py);
    }
  }

  /** Beyond that, two names may share a node: the euro sign, and a blank followed by `AC`. */
  lemma {:induction false} WideNamesCollide(py: Python)
    requires py.Valid() && !py.Kept('\U{20AC}') && !py.Kept(' ') && py.isAlnum('A') && py.isAlnum('C')
    ensures Escaped("\U{20AC}", py) == Escaped(" AC", py)
  {
    assert Hex(0x20AC / 16) == Hex(0x20) + [HexDigit(0xA)];
    assert Hex(0x20) == Hex(2) + [HexDigit(0)];
    assert "\U{20AC}"[1..] == "";
    assert " AC"[1..] == "AC" && "AC"[1..] == "C" && "C"[1..] == "";
    assert Escaped("C", py) == "C" + "";
    assert Escaped("AC", py) == "A" + "C";
    assert EscapedChar(' ', py) == "%" + "2" + "0";
    assert EscapedChar('\U{20AC}', py) == "%" + ("20" + "A") + "C";
  }

  // ---------------------------------------------------------------- node names

  lemma {:induction false} NoSlash(s: string, py: Python)
    requires py.Valid()
    ensures '/' !in Escaped(s, py)
  {
    if s != "" {
      NoSlash(s[1..], py);
      HexIsAlnum(s[0] as int / 16, py);
      HexIsAlnum(s[0] as int % 16, py);
    }
  }

  lemma {:induction false} Injective(a: string, b: string, py: Python)
    requires py.Valid() && Narrow(a, py) && Narrow(b, py) && Escaped(a, py) == Escaped(b, py)
    ensures a == b
  {
    RoundTrip(a, py);
    RoundTrip(b, py);
  }

  /** `get_replicated_db_table_zk_path` */
  function TablePath(dbPath: string, table: string, py: Python): string {
    dbPath + "/" + ("metadata" + "/" + Escaped(table, py))
  }

  /** A table's node is a child of the metadata node, whatever the name; different tables have different nodes. */
  lemma {:induction false} TablePathsDiffer(dbPath: string, a: string, b: string, py: Python)
    requires py.Valid() && a != b && Narrow(a, py) && Narrow(b, py)
    ensures Split(TablePath(dbPath, a, py), '/') == Split(dbPath, '/') + ["metadata", Escaped(a, py)]
    ensures Split(TablePath(dbPath, a, py), '/') != Split(TablePath(dbPath, b, py), '/')
  {
    TablePathParts(dbPath, a, py);
    TablePathParts(dbPath, b, py);
    if Escaped(a, py) == Escaped(b, py) {
      Injective(a, b, py);
    }
    var parts := Split(dbPath, '/');
    assert (parts + ["metadata", Escaped(a, py)])[|parts| + 1] == Escaped(a, py);
    assert (parts + ["metadata", Escaped(b, py)])[|parts| + 1] == Escaped(b, py);
  }

  lemma {:induction false} TablePathParts(dbPath: string, table: string, py: Python)
    requires py.Valid()
    ensures Split(TablePath(dbPath, table, py), '/') == Split(dbPath, '/') + ["metadata", Escaped(table, py)]
  {
    NoSlash(table, py);
    var inner := "metadata" + "/" + Escaped(table, py);
    SplitConcat(dbPath, inner, '/');
    SplitConcat("metadata", Escaped(table, py), '/');
    SplitNoSeparator("metadata", '/');
    SplitNoSeparator(Escaped(table, py), '/');
  }
}

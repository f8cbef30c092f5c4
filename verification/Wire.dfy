/** The registry's reply header: addresses joined by commas, and how discovery reads it. */
module Wire {
  import opened Base
  import opened Strings

  const COMMA := ','

  /** White space as the Go standard library defines it. */
  predicate Space(c: char) {
    || c == ' ' || '\t' <= c <= '\r' || c == '\U{85}' || c == '\U{A0}' || c == '\U{1680}'
    || '\U{2000}' <= c <= '\U{200A}' || c == '\U{2028}' || c == '\U{2029}' || c == '\U{202F}'
    || c == '\U{205F}' || c == '\U{3000}'
  }

  function TrimLeft(s: string): string { if s != "" && Space(s[0]) then TrimLeft(s[1..]) else s }

  function TrimRight(s: string): string { if s != "" && Space(s[|s| - 1]) then TrimRight(s[..|s| - 1]) else s }

  function Trim(s: string): string { TrimRight(TrimLeft(s)) }

  /** The pieces that are not blank, trimmed. */
  function Kept(pieces: seq<string>): seq<string> {
    if pieces == [] then []
    else (if Trim(pieces[0]) != "" then [Trim(pieces[0])] else []) + Kept(pieces[1..])
  }

  function Encode(addrs: seq<string>): string { Join(addrs, COMMA) }

  function Decode(header: string): seq<string> { Kept(Split(header, COMMA)) }

  /** An address that survives the wire. */
  predicate Address(a: string) {
    a != "" && COMMA !in a && !Space(a[0]) && !Space(a[|a| - 1])
  }

  lemma {:induction false} TrimLeftEnds(s: string)
    ensures var t := TrimLeft(s); (t == "" || !Space(t[0])) && (forall c :: c in t ==> c in s)
  {
    if s != "" && Space(s[0]) { TrimLeftEnds(s[1..]); }
  }

  lemma {:induction false} TrimRightEnds(s: string)
    ensures var t := TrimRight(s); t <= s && (t == "" || !Space(t[|t| - 1]))
  {
    if s != "" && Space(s[|s| - 1]) { TrimRightEnds(s[..|s| - 1]); }
  }

  lemma TrimEnds(s: string)
    requires COMMA !in s && Trim(s) != ""
    ensures Address(Trim(s))
  {
    TrimLeftEnds(s);
    TrimRightEnds(TrimLeft(s));
  }

  lemma {:induction false} KeptAddresses(pieces: seq<string>)
    requires Free(pieces, COMMA)
    ensures forall a :: a in Kept(pieces) ==> Address(a)
  {
    if pieces != [] {
      KeptAddresses(pieces[1..]);
      if Trim(pieces[0]) != "" { TrimEnds(pieces[0]); }
    }
  }

  lemma {:induction false} KeptAll(addrs: seq<string>)
    requires forall a :: a in addrs ==> Address(a)
    ensures Kept(addrs) == addrs
  {
    if addrs != [] {
      var a := addrs[0];
      assert a in addrs && Address(a);
      assert TrimLeft(a) == a && TrimRight(a) == a;
      KeptAll(addrs[1..]);
    }
  }

  lemma KeptStep(pieces: seq<string>, i: nat, got: seq<string>)
    requires i < |pieces|
    ensures got + Kept(pieces[i..]) ==
            (if Trim(pieces[i]) != "" then got + [Trim(pieces[i])] else got) + Kept(pieces[i + 1..])
  {
    assert pieces[i..][0] == pieces[i] && pieces[i..][1..] == pieces[i + 1..];
  }

  /** A decoded list never holds anything but well-formed addresses. */
  lemma DecodeGivesAddresses(header: string)
    ensures forall a :: a in Decode(header) ==> Address(a)
  {
    SplitFree(header, COMMA);
    KeptAddresses(Split(header, COMMA));
  }

  lemma EmptyRoundTrip()
    ensures Decode(Encode([])) == []
  {
    assert Split("", COMMA) == [""] && Kept([""][1..]) == [] && Trim("") == "";
  }

  /** Discovery reads back exactly the list the registry wrote, the empty one included, if
      and only if every address on it is well formed. */
  lemma RoundTripExactly(addrs: seq<string>)
    ensures Encode(addrs) == Join(addrs, ',')
    ensures Decode(Encode(addrs)) == addrs <==> forall a :: a in addrs ==> Address(a)
  {
    DecodeGivesAddresses(Encode(addrs));
    if forall a :: a in addrs ==> Address(a) {
      if addrs == [] {
        EmptyRoundTrip();
      } else {
        SplitJoin(addrs, COMMA);
        KeptAll(addrs);
      }
    }
  }

  lemma {:induction false} KeptConcat(a: seq<string>, b: seq<string>)
    ensures Kept(a + b) == Kept(a) + Kept(b)
  {
    if a == [] {
      assert a + b == b;
    } else {
      var head := if Trim(a[0]) != "" then [Trim(a[0])] else [];
      KeptConcat(a[1..], b);
      assert (a + b)[0] == a[0] && (a + b)[1..] == a[1..] + b;
      Regroup(head, Kept(a[1..]), Kept(b));
    }
  }

  /** Whatever discovery reads is a piece of one of the addresses on the list. */
  lemma {:induction false} PieceOfOne(addrs: seq<string>, s: string) returns (a: string)
    requires s in Decode(Encode(addrs))
    ensures a in addrs && s in Decode(a)
  {
    EmptyRoundTrip();
    if |addrs| == 1 {
      a := addrs[0];
    } else {
      SplitConcat(addrs[0], Join(addrs[1..], COMMA), COMMA);
      KeptConcat(Split(addrs[0], COMMA), Split(Encode(addrs[1..]), COMMA));
      if s in Decode(addrs[0]) { a := addrs[0]; } else { a := PieceOfOne(addrs[1..], s); }
    }
  }

  lemma AddressIsItsOnlyPiece(a: string)
    requires Address(a)
    ensures Decode(a) == [a]
  {
    RoundTripExactly([a]);
  }

  // ---------------------------------------------------------------- what is read, piece by piece

  /** White space and nothing else. */
  predicate Blank(s: string) { forall i :: 0 <= i < |s| ==> Space(s[i]) }

  /** t is s without the white space around it. */
  ghost predicate Trimmed(s: string, t: string) {
    && (exists a: string, b: string :: Blank(a) && Blank(b) && s == a + t + b)
    && (t == "" || (!Space(t[0]) && !Space(t[|t| - 1])))
  }

  lemma {:induction false} TrimLeftDrops(s: string) returns (a: string)
    ensures Blank(a) && s == a + TrimLeft(s)
  {
    if s != "" && Space(s[0]) {
      var b := TrimLeftDrops(s[1..]);
      a := [s[0]] + b;
      assert s == [s[0]] + s[1..] == a + TrimLeft(s);
    } else {
      a := "";
    }
  }

  lemma {:induction false} TrimRightDrops(s: string) returns (b: string)
    ensures Blank(b) && s == TrimRight(s) + b
  {
    if s != "" && Space(s[|s| - 1]) {
      var c := TrimRightDrops(s[..|s| - 1]);
      b := c + [s[|s| - 1]];
      assert s == s[..|s| - 1] + [s[|s| - 1]] == TrimRight(s) + b;
    } else {
      b := "";
    }
  }

  lemma TrimIsTrimmed(s: string)
    ensures Trimmed(s, Trim(s))
  {
    var a := TrimLeftDrops(s);
    var b := TrimRightDrops(TrimLeft(s));
    TrimLeftEnds(s);
    TrimRightEnds(TrimLeft(s));
    assert Blank(a) && Blank(b) && s == a + Trim(s) + b;
  }

  /** There is only one way to trim. */
  lemma TrimExactly(s: string, t: string)
    ensures Trimmed(s, t) <==> t == Trim(s)
  {
    TrimIsTrimmed(s);
    if Trimmed(s, t) {
      var a: string, b: string :| Blank(a) && Blank(b) && s == a + t + b;
      var c: string, d: string :| Blank(c) && Blank(d) && s == c + Trim(s) + d;
      SameTrim(s, a, t, b, c, Trim(s), d);
    }
  }

  lemma SameTrim(s: string, a: string, t: string, b: string, c: string, u: string, d: string)
    requires s == a + t + b == c + u + d && Blank(a) && Blank(b) && Blank(c) && Blank(d)
    requires (t == "" || (!Space(t[0]) && !Space(t[|t| - 1]))) && (u == "" || (!Space(u[0]) && !Space(u[|u| - 1])))
    ensures t == u
  {
    assert t != "" ==> s[|a|] == t[0] && s[|a| + |t| - 1] == t[|t| - 1];
    assert u != "" ==> s[|c|] == u[0] && s[|c| + |u| - 1] == u[|u| - 1];
    assert forall i :: 0 <= i < |s| && (i < |a| || i >= |a| + |t|) ==> Space(s[i]);
    assert forall i :: 0 <= i < |s| && (i < |c| || i >= |c| + |u|) ==> Space(s[i]);
    if t != "" {
      assert t == s[|a|..|a| + |t|] && u == s[|c|..|c| + |u|];
    }
  }

  /** Exactly what is blank is trimmed away. */
  lemma BlankExactly(s: string)
    ensures Blank(s) <==> Trim(s) == ""
  {
    if Blank(s) {
      var none := "";
      assert Blank(none) && s == s + "" + none;
      TrimExactly(s, "");
    }
    if Trim(s) == "" {
      TrimIsTrimmed(s);
      var a: string, b: string :| Blank(a) && Blank(b) && s == a + "" + b;
      assert forall j :: 0 <= j < |s| ==> s[j] == if j < |a| then a[j] else b[j - |a|];
    }
  }

  /** Discovery reads the pieces between the commas one by one, each without the white space
      around it, and skips the blank ones: nothing else is dropped or changed. */
  lemma {:induction false} KeptIs(pieces: seq<string>, i: nat)
    requires i < |pieces|
    ensures Kept(pieces) == Kept(pieces[..i]) + Kept([pieces[i]]) + Kept(pieces[i + 1..])
    ensures if Blank(pieces[i]) then Kept([pieces[i]]) == []
            else exists t :: t != "" && Trimmed(pieces[i], t) && Kept([pieces[i]]) == [t]
  {
    var p := pieces[i];
    assert pieces == pieces[..i] + [p] + pieces[i + 1..];
    KeptConcat(pieces[..i] + [p], pieces[i + 1..]);
    KeptConcat(pieces[..i], [p]);
    assert [p][1..] == [];
    TrimIsTrimmed(p);
    BlankExactly(p);
  }
}

/** Firestore document ids (internal/provider/gcp/firestore.go, docID). */
module DocId {
  const PREFIX: string := "kv-"

  function EscapeChar(c: char): string {
    if c == '/' then "%2F" else if c == '%' then "%25" else [c]
  }

  function Escape(key: string): string {
    if key == "" then "" else EscapeChar(key[0]) + Escape(key[1..])
  }

  lemma {:induction false} EscapeAppend(a: string, c: char)
    ensures Escape(a + [c]) == Escape(a) + EscapeChar(c)
  {
    if a == "" {
      assert a + [c] == [c];
      assert Escape([c]) == EscapeChar(c) + Escape([c][1..]);
    } else {
      assert (a + [c])[1..] == a[1..] + [c];
      EscapeAppend(a[1..], c);
    }
  }

  /** A byte that can fail to belong to a character: ASCII bytes never do. */
  type HighByte = b: bv8 | b >= 0x80 witness 0x80

  /** What a Go string is made of: characters in UTF-8, and bytes that belong to none.  (Bad bytes that
      together are a character never come side by side from a string; nothing here depends on that.) */
  datatype Symbol = Rune(c: char) | BadByte(b: HighByte)

  type Key = seq<Symbol>

  const REPLACEMENT: char := '\U{FFFD}'

  /** What a range loop makes of it: every bad byte comes as the replacement character. */
  function Ranged(s: Symbol): char {
    if s.Rune? then s.c else REPLACEMENT
  }

  function Seen(key: Key): string {
    if key == [] then "" else [Ranged(key[0])] + Seen(key[1..])
  }

  lemma {:induction false} SeenAppend(a: Key, b: Key)
    ensures Seen(a + b) == Seen(a) + Seen(b) && |Seen(a)| == |a|
  {
    if a == [] {
      assert a + b == b;
    } else {
      assert (a + b)[1..] == a[1..] + b;
      SeenAppend(a[1..], b);
    }
  }

  predicate Valid(key: Key) {
    forall s :: s in key ==> s.Rune?
  }

  lemma {:induction false} ValidKeysAreSeen(k1: Key, k2: Key)
    requires Valid(k1) && Valid(k2) && Seen(k1) == Seen(k2)
    ensures k1 == k2
  {
    if k1 != [] && k2 != [] {
      assert Seen(k1)[0] == k1[0].c && Seen(k2)[0] == k2[0].c;
      assert Seen(k1)[1..] == Seen(k1[1..]) && Seen(k2)[1..] == Seen(k2[1..]);
      ValidKeysAreSeen(k1[1..], k2[1..]);
    }
  }

  lemma EscapeSeenStep(key: Key, i: nat)
    requires i < |key|
    ensures Escape(Seen(key[..i + 1])) == Escape(Seen(key[..i])) + EscapeChar(Ranged(key[i]))
  {
    var r := Ranged(key[i]);
    assert key[..i + 1] == key[..i] + [key[i]];
    SeenAppend(key[..i], [key[i]]);
    assert [key[i]][1..] == [];
    assert Seen([key[i]]) == [r];
    EscapeAppend(Seen(key[..i]), r);
  }

  /** The source's loop over the key, writing into a builder. */
  method DocID(key: Key) returns (id: string)
    ensures id == PREFIX + Escape(Seen(key))
  {
    id := PREFIX;
    for i := 0 to |key|
      invariant id == PREFIX + Escape(Seen(key[..i]))
    {
      var r := Ranged(key[i]);
      EscapeSeenStep(key, i);
      if r == '/' {
        id := id + "%2F";
      } else if r == '%' {
        id := id + "%25";
      } else {
        id := id + [r];
      }
    }
    assert key[..|key|] == key;
  }

  /** The inverse, written independently: what reading an id back would do. */
  function Unescape(s: string): string {
    if s == "" then ""
    else if |s| >= 3 && s[..3] == "%2F" then "/" + Unescape(s[3..])
    else if |s| >= 3 && s[..3] == "%25" then "%" + Unescape(s[3..])
    else [s[0]] + Unescape(s[1..])
  }

  lemma {:induction false} UnescapeUndoesEscape(key: string)
    ensures Unescape(Escape(key)) == key
  {
    if key != "" {
      var e, rest := EscapeChar(key[0]), Escape(key[1..]);
      UnescapeUndoesEscape(key[1..]);
      assert (e + rest)[|e|..] == rest;
      if |e| == 3 {
        assert (e + rest)[..3] == e;
        assert "%2F"[2] != "%25"[2];
      } else {
        assert (e + rest)[0] == key[0];
        assert |e + rest| >= 3 ==> (e + rest)[..3][0] == key[0];
        assert "%2F"[0] == '%' && "%25"[0] == '%';
      }
    }
  }

  lemma DistinctTextsDistinctIds(t1: string, t2: string)
    ensures PREFIX + Escape(t1) == PREFIX + Escape(t2) ==> t1 == t2
  {
    if PREFIX + Escape(t1) == PREFIX + Escape(t2) {
      assert (PREFIX + Escape(t1))[3..] == Escape(t1) && (PREFIX + Escape(t2))[3..] == Escape(t2);
      UnescapeUndoesEscape(t1);
      UnescapeUndoesEscape(t2);
    }
  }

  /** Two keys share a document exactly when a range loop cannot tell them apart; so distinct keys of valid
      UTF-8 never do. */
  lemma SameDocumentIff(k1: Key, k2: Key)
    ensures PREFIX + Escape(Seen(k1)) == PREFIX + Escape(Seen(k2)) <==> Seen(k1) == Seen(k2)
    ensures Valid(k1) && Valid(k2) ==> (PREFIX + Escape(Seen(k1)) == PREFIX + Escape(Seen(k2)) <==> k1 == k2)
  {
    DistinctTextsDistinctIds(Seen(k1), Seen(k2));
    if Valid(k1) && Valid(k2) && Seen(k1) == Seen(k2) {
      ValidKeysAreSeen(k1, k2);
    }
  }

  /** Keys that are not valid UTF-8 can. */
  lemma InvalidKeysCollide()
    ensures exists k1: Key, k2: Key :: k1 != k2 && PREFIX + Escape(Seen(k1)) == PREFIX + Escape(Seen(k2))
  {
    var k1, k2 := [BadByte(0x80)], [BadByte(0x81)];
    assert k1[0] != k2[0];
    assert Seen(k1) == [REPLACEMENT] + Seen(k1[1..]) && Seen(k2) == [REPLACEMENT] + Seen(k2[1..]);
    assert k1[1..] == [] && k2[1..] == [];
  }

  lemma {:induction false} EscapeConcat(a: string, b: string)
    ensures Escape(a + b) == Escape(a) + Escape(b)
  {
    if a == "" {
      assert a + b == b;
    } else {
      assert (a + b)[1..] == a[1..] + b;
      EscapeConcat(a[1..], b);
    }
  }

  /** The escape of a text is that of its characters in turn: two codes, and every other one itself. */
  lemma EscapeIsCharByChar(a: string, c: char, b: string)
    ensures Escape(a + [c] + b) ==
            Escape(a) + (if c == '/' then "%2F" else if c == '%' then "%25" else [c]) + Escape(b)
  {
    EscapeConcat(a + [c], b);
    EscapeAppend(a, c);
  }

  lemma {:induction false} EscapedHasNoSlash(key: string)
    ensures '/' !in Escape(key)
  {
    if key != "" {
      EscapedHasNoSlash(key[1..]);
    }
  }

  /** An id is always one Firestore accepts: no slash, not ".", not "..", not of the form __.*__. */
  lemma IdIsAllowed(key: string)
    ensures var id := PREFIX + Escape(key);
            && '/' !in id && id != "." && id != ".."
            && !(|id| >= 4 && id[..2] == "__" && id[|id| - 2..] == "__")
  {
    EscapedHasNoSlash(key);
    var id := PREFIX + Escape(key);
    assert id[0] == 'k';
    assert "__"[0] == '_' && "."[0] == '.' && ".."[0] == '.';
    assert |id| >= 4 ==> id[..2][0] == 'k';
  }
}

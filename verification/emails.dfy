/** The e-mail heuristic: every whitespace-separated word of a freeform
    contact field that contains an `@` is taken as an address. No
    address syntax is checked. */
module Emails {
  import opened Seqs
  import opened Words

  /** The word contains an `@`, the only test the extraction applies. */
  predicate HasAt(w: string)
  {
    '@' in w
  }

  /** The words containing `@`, in order, duplicates kept. */
  function KeepAddresses(ws: seq<string>): (r: seq<string>)
    ensures forall i :: 0 <= i < |r| ==> HasAt(r[i]) && r[i] in ws
    ensures |r| <= |ws|
  {
    if |ws| == 0 then []
    else if HasAt(ws[0]) then [ws[0]] + KeepAddresses(ws[1..])
    else KeepAddresses(ws[1..])
  }

  /** `get_email_addresses`: the address-like words of `field`. */
  function GetEmailAddresses(field: string): (r: seq<string>)
    ensures forall i :: 0 <= i < |r| ==> HasAt(r[i]) && IsWord(r[i])
  {
    KeepAddresses(Split(field))
  }

  /** Keeping addresses commutes with concatenation; together with the
      one-word case this pins the filter down completely. */
  lemma {:induction false} KeepAddressesAppend(a: seq<string>, b: seq<string>)
    ensures KeepAddresses(a + b) == KeepAddresses(a) + KeepAddresses(b)
    ensures KeepAddresses([]) == []
    ensures forall w :: KeepAddresses([w]) == if HasAt(w) then [w] else []
    decreases |a|
  {
    if |a| > 0 {
      assert (a + b)[1..] == a[1..] + b;
      KeepAddressesAppend(a[1..], b);
    } else {
      assert a + b == b;
    }
    forall w ensures KeepAddresses([w]) == if HasAt(w) then [w] else [] {
      assert [w][1..] == [];
    }
  }

  /** The result is a subsequence of the words: order is kept and nothing
      is invented. */
  lemma {:induction false} KeepAddressesSubsequence(ws: seq<string>)
    ensures IsSubsequence(KeepAddresses(ws), ws)
    decreases |ws|
  {
    if |ws| > 0 {
      KeepAddressesSubsequence(ws[1..]);
    }
  }

  /** A word is an extracted address exactly when it is a word of the field
      that contains `@`; none are extracted exactly when no word has one. */
  lemma {:induction false} KeepAddressesMembers(ws: seq<string>)
    ensures forall w :: w in KeepAddresses(ws) <==> w in ws && HasAt(w)
    ensures KeepAddresses(ws) == [] <==> forall i :: 0 <= i < |ws| ==> !HasAt(ws[i])
    decreases |ws|
  {
    if |ws| > 0 {
      KeepAddressesMembers(ws[1..]);
      assert ws == [ws[0]] + ws[1..];
    }
  }

  /** The field-level form of the above: an address is extracted exactly
      when it is a whitespace-separated word of the field containing `@`,
      the extraction is an order-preserving subsequence of those words, and
      nothing is extracted from a field with no such word. */
  lemma GetEmailAddressesExact(field: string)
    ensures forall w :: w in GetEmailAddresses(field) <==> w in Split(field) && HasAt(w)
    ensures IsSubsequence(GetEmailAddresses(field), Split(field))
    ensures GetEmailAddresses(field) == [] <==> forall i :: 0 <= i < |Split(field)| ==> !HasAt(Split(field)[i])
  {
    KeepAddressesMembers(Split(field));
    KeepAddressesSubsequence(Split(field));
  }

  /** Extraction distributes over a whitespace separator. */
  lemma GetEmailAddressesAround(a: string, c: char, b: string)
    requires IsSpace(c)
    ensures GetEmailAddresses(a + [c] + b) == GetEmailAddresses(a) + GetEmailAddresses(b)
  {
    SplitAround(a, c, b);
    KeepAddressesAppend(Split(a), Split(b));
  }

  /** A leading word followed by a space contributes itself when it
      contains `@`, and nothing otherwise. */
  lemma LeadingWordField(w: string, rest: string)
    requires IsWord(w)
    ensures GetEmailAddresses(w + [' '] + rest)
         == (if HasAt(w) then [w] else []) + GetEmailAddresses(rest)
  {
    GetEmailAddressesAround(w, ' ', rest);
    OneWordField(w);
  }

  /** A field of three single-space-separated words yields those of them
      that contain `@`, in order. */
  lemma ThreeWordField(a: string, b: string, c: string, tail: string, field: string)
    requires IsWord(a) && IsWord(b) && IsWord(c)
    requires tail == b + [' '] + c && field == a + [' '] + tail
    ensures GetEmailAddresses(field)
         == (if HasAt(a) then [a] else []) + (if HasAt(b) then [b] else []) + (if HasAt(c) then [c] else [])
  {
    OneWordField(c);
    LeadingWordField(b, c);
    LeadingWordField(a, tail);
  }

  /** Worked example: the non-address between two addresses is dropped. */
  lemma TwoAddressesExample()
    ensures GetEmailAddresses("a@b.com x y@z.com") == ["a@b.com", "y@z.com"]
  {
    SpelledOutTwoAddresses();
    ThreeWordField("a@b.com", "x", "y@z.com", "x y@z.com", "a@b.com x y@z.com");
  }

  /** Worked example: a field without `@` yields nothing. */
  lemma NoAddressExample()
    ensures GetEmailAddresses("no emails here") == []
  {
    SpelledOutNoAddress();
    ThreeWordField("no", "emails", "here", "emails here", "no emails here");
  }

  /** The facts about the literals of `TwoAddressesExample` that
      `ThreeWordField` asks for: how the field is assembled from its three
      words, that each is a word, and which contain `@`. Proving them
      apart keeps the example's own proof small. */
  lemma SpelledOutTwoAddresses()
    ensures "x" + [' '] + "y@z.com" == "x y@z.com"
    ensures "a@b.com" + [' '] + "x y@z.com" == "a@b.com x y@z.com"
    ensures IsWord("a@b.com") && IsWord("x") && IsWord("y@z.com")
    ensures HasAt("a@b.com") && !HasAt("x") && HasAt("y@z.com")
  {
  }

  /** The same facts for the literals of `NoAddressExample`. */
  lemma SpelledOutNoAddress()
    ensures "emails" + [' '] + "here" == "emails here"
    ensures "no" + [' '] + "emails here" == "no emails here"
    ensures IsWord("no") && IsWord("emails") && IsWord("here")
    ensures !HasAt("no") && !HasAt("emails") && !HasAt("here")
  {
  }

  /** A field that is a single word yields that word iff it contains `@`. */
  lemma OneWordField(w: string)
    requires IsWord(w)
    ensures GetEmailAddresses(w) == if HasAt(w) then [w] else []
  {
    SplitWordThen(w, "");
    assert w + "" == w;
    assert KeepAddresses([w]) == if HasAt(w) then [w] else [] by {
      assert [w][1..] == [];
    }
  }
}

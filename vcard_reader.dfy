/**
 * A reader for the text `buildVcf` writes, used as its inverse: every card
 * is the fixed five-line layout, cards are separated by one CRLF, and as
 * long as no name or phone holds a carriage return the cards can be read
 * back exactly.
 */
module VCardReader {
  import opened Wrappers
  import opened Strings
  import opened Tabular
  import opened ProcessRoute

  /** Everything of a card before the name. */
  const Head: string := "BEGIN:VCARD" + (CRLF + ("VERSION:3.0" + (CRLF + "FN:")))
  /** Between the name and the phone. */
  const TelTag: string := CRLF + "TEL;TYPE=CELL:"
  /** After the phone. */
  const EndTag: string := CRLF + "END:VCARD"

  /** `s` with the leading `p` removed, when `s` starts with `p`. */
  function StripPrefix(p: string, s: string): (r: Option<string>)
    ensures r.Some? ==> p + r.value == s
    ensures r.None? ==> !(|p| <= |s| && s[..|p|] == p)
  {
    if |p| <= |s| && s[..|p|] == p then
      assert p + s[|p|..] == s;
      Some(s[|p|..])
    else None
  }

  lemma StripPrefixConcat(p: string, t: string)
    ensures StripPrefix(p, p + t) == Some(t)
  {
    assert (p + t)[..|p|] == p;
    assert (p + t)[|p|..] == t;
  }

  /** The text of `s` up to its first carriage return, or all of `s`. */
  function LineOf(s: string): (r: string)
    ensures |r| <= |s| && r == s[..|r|] && '\r' !in r
    ensures |r| < |s| ==> s[|r|] == '\r'
  {
    if |s| == 0 || s[0] == '\r' then "" else [s[0]] + LineOf(s[1..])
  }

  lemma {:induction false} LineOfConcat(x: string, t: string)
    requires '\r' !in x && |t| > 0 && t[0] == '\r'
    ensures LineOf(x + t) == x
  {
    if |x| > 0 {
      assert (x + t)[1..] == x[1..] + t;
      LineOfConcat(x[1..], t);
      assert [x[0]] + x[1..] == x;
    } else {
      assert x + t == t;
    }
  }

  /** Reads one card from the front of `s`: its contact and the text after it. */
  function ParseCard(s: string): (r: Option<(Contact, string)>)
    ensures r.Some? ==> |r.value.1| < |s|
  {
    match StripPrefix(Head, s)
    case None => None
    case Some(a) =>
      var name := LineOf(a);
      match StripPrefix(TelTag, a[|name|..])
      case None => None
      case Some(b) =>
        var phone := LineOf(b);
        match StripPrefix(EndTag, b[|phone|..])
        case None => None
        case Some(rest) => Some((Contact(name, phone), rest))
  }

  /** Reads one or more cards separated by CRLF, up to the end of `s`. */
  function ParseCards(s: string): Option<seq<Contact>>
    decreases |s|
  {
    match ParseCard(s)
    case None => None
    case Some((c, rest)) =>
      if rest == "" then Some([c])
      else
        match StripPrefix(CRLF, rest)
        case None => None
        case Some(more) =>
          match ParseCards(more)
          case None => None
          case Some(cs) => Some([c] + cs)
  }

  /** Reads the whole text: no cards for the empty text. */
  function ParseVcf(s: string): Option<seq<Contact>>
  {
    if s == "" then Some([]) else ParseCards(s)
  }

  /** A contact can be written without ambiguity when neither field holds a carriage return. */
  predicate Writable(c: Contact)
  {
    '\r' !in c.name && '\r' !in c.phone
  }

  /** Five lines joined by a separator. */
  lemma JoinFive(a: string, b: string, c: string, d: string, e: string, sep: string)
    ensures Join([a, b, c, d, e], sep) == a + (sep + (b + (sep + (c + (sep + (d + (sep + e)))))))
  {
    var j4 := sep + e;
    assert [d, e][1..] == [e];
    assert Join([d, e], sep) == d + j4;
    var j3 := sep + (d + j4);
    assert [c, d, e][1..] == [d, e];
    assert Join([c, d, e], sep) == c + j3;
    var j2 := sep + (c + j3);
    assert [b, c, d, e][1..] == [c, d, e];
    assert Join([b, c, d, e], sep) == b + j2;
    assert [a, b, c, d, e][1..] == [b, c, d, e];
    assert Join([a, b, c, d, e], sep) == a + (sep + (b + j2));
  }

  lemma JoinCardLines(c: Contact)
    ensures CardText(c) ==
      "BEGIN:VCARD" + (CRLF + ("VERSION:3.0" + (CRLF + (("FN:" + c.name) + (CRLF + (("TEL;TYPE=CELL:" + c.phone) + (CRLF + "END:VCARD")))))))
  {
    JoinFive("BEGIN:VCARD", "VERSION:3.0", "FN:" + c.name, "TEL;TYPE=CELL:" + c.phone, "END:VCARD", CRLF);
  }

  /** The five lines of a card, joined by CRLF, are the head, the name, the phone tag, the phone and the end tag. */
  lemma CardTextLayout(c: Contact)
    ensures CardText(c) == Head + (c.name + (TelTag + (c.phone + EndTag)))
  {
    JoinCardLines(c);
  }

  /** A field followed by a tag that starts with a carriage return is read as exactly that field. */
  lemma ReadField(x: string, rest: string)
    requires '\r' !in x && |rest| > 0 && rest[0] == '\r'
    ensures LineOf(x + rest) == x && (x + rest)[|x|..] == rest
  {
    LineOfConcat(x, rest);
  }

  /** Reading a written card gives back its contact and leaves the following text untouched. */
  lemma ParseCardOfCardText(c: Contact, t: string)
    requires Writable(c)
    ensures ParseCard(CardText(c) + t) == Some((c, t))
  {
    CardTextLayout(c);
    var b := c.phone + (EndTag + t);
    var a := c.name + (TelTag + b);
    assert CardText(c) + t == Head + a;
    StripPrefixConcat(Head, a);
    ReadField(c.name, TelTag + b);
    StripPrefixConcat(TelTag, b);
    ReadField(c.phone, EndTag + t);
    StripPrefixConcat(EndTag, t);
  }

  /** A join of a non-empty list starts with its first element. */
  lemma JoinStartsWithFirst(xs: seq<string>, sep: string)
    requires |xs| > 0
    ensures |Join(xs, sep)| >= |xs[0]| && Join(xs, sep)[..|xs[0]|] == xs[0]
  {
  }

  /** The cards after the first: dropping the first contact drops the first card. */
  lemma CardsTail(cs: seq<Contact>)
    requires |cs| > 0
    ensures Cards(cs)[0] == CardText(cs[0]) && Cards(cs)[1..] == Cards(cs[1..])
  {
  }

  lemma ParseLastCard(c: Contact)
    requires Writable(c)
    ensures ParseCards(CardText(c)) == Some([c])
  {
    ParseCardOfCardText(c, "");
    assert CardText(c) + "" == CardText(c);
  }

  lemma ParseNextCard(c: Contact, tail: string)
    requires Writable(c) && tail != ""
    ensures ParseCards(CardText(c) + (CRLF + tail)) ==
      match ParseCards(tail)
      case None => None
      case Some(cs) => Some([c] + cs)
  {
    ParseCardOfCardText(c, CRLF + tail);
    StripPrefixConcat(CRLF, tail);
  }

  /** Writing non-empty cards and reading them back gives the same contacts. */
  lemma {:induction false} ParseCardsRoundTrip(cs: seq<Contact>)
    requires |cs| > 0
    requires forall i :: 0 <= i < |cs| ==> Writable(cs[i])
    ensures ParseCards(Join(Cards(cs), CRLF)) == Some(cs)
    decreases |cs|
  {
    if |cs| == 1 {
      JoinCardsSingle(cs);
      ParseLastCard(cs[0]);
    } else {
      JoinCardsCons(cs);
      ParseCardsRoundTrip(cs[1..]);
      ParseNextCard(cs[0], Join(Cards(cs[1..]), CRLF));
      assert [cs[0]] + cs[1..] == cs;
    }
  }

  lemma JoinCardsSingle(cs: seq<Contact>)
    requires |cs| == 1
    ensures Join(Cards(cs), CRLF) == CardText(cs[0]) && cs == [cs[0]]
  {
  }

  /** The text of two or more cards is the first card, a CRLF, and the text of the rest, which is not empty. */
  lemma JoinCardsCons(cs: seq<Contact>)
    requires |cs| > 1
    ensures Join(Cards(cs), CRLF) == CardText(cs[0]) + (CRLF + Join(Cards(cs[1..]), CRLF))
    ensures Join(Cards(cs[1..]), CRLF) != ""
  {
    CardsTail(cs);
    CardsTail(cs[1..]);
    CardTextLayout(cs[1]);
    JoinStartsWithFirst(Cards(cs[1..]), CRLF);
  }

  /** The vCard text is a faithful encoding of its contacts: reading it back gives them all, in order. */
  lemma ParseVcfRoundTrip(cs: seq<Contact>)
    requires forall i :: 0 <= i < |cs| ==> Writable(cs[i])
    ensures ParseVcf(Join(Cards(cs), CRLF)) == Some(cs)
  {
    if |cs| > 0 {
      ParseCardsRoundTrip(cs);
      CardTextLayout(cs[0]);
      CardsTail(cs);
      JoinStartsWithFirst(Cards(cs), CRLF);
    }
  }

  /** For the export itself: when no name or phone holds a carriage return, the cards `buildVcf` emits can be read back from its text. */
  lemma VcfTextRoundTrip(rows: seq<Row>, phoneColumns: seq<string>, prefix: string, suffix: string)
    requires forall c :: c in VcfContacts(rows, phoneColumns, prefix, suffix) ==> Writable(c)
    ensures ParseVcf(VcfText(rows, phoneColumns, prefix, suffix)) == Some(VcfContacts(rows, phoneColumns, prefix, suffix))
  {
    var cs := VcfContacts(rows, phoneColumns, prefix, suffix);
    assert forall i :: 0 <= i < |cs| ==> cs[i] in cs;
    ParseVcfRoundTrip(cs);
  }
}

// The IPv4 address check `est_adresse_ip_valide` (fourth.py:8-10), stated as
// a predicate on text rather than as a regular-expression engine.

module IPv4 {
  import opened PyStrings

  /** An ASCII decimal digit: the class `[0-9]` of the pattern. */
  predicate IsDigit(c: char)
  {
    '0' <= c <= '9'
  }

  predicate AllDigits(g: string)
  {
    forall k :: 0 <= k < |g| ==> IsDigit(g[k])
  }

  function DigitValue(c: char): (d: nat)
    requires IsDigit(c)
    ensures d < 10
  {
    c as int - '0' as int
  }

  /** The number a string of decimal digits denotes (leading zeros allowed). */
  function Value(g: string): nat
    requires AllDigits(g)
    decreases |g|
  {
    if |g| == 0 then 0 else 10 * Value(g[..|g| - 1]) + DigitValue(g[|g| - 1])
  }

  /** One group of a dotted-decimal address: one to three ASCII digits whose
      value is at most 255, so "7", "07", "007" and "255" are groups and
      "256" and "0000" are not. */
  predicate IsOctet(g: string)
  {
    1 <= |g| <= 3 && AllDigits(g) && Value(g) <= 255
  }

  /** The address proper: exactly four `.`-separated groups, each an octet. */
  predicate IsDottedQuad(s: string)
  {
    var groups := Split(s, '.');
    |groups| == 4 && forall i :: 0 <= i < 4 ==> IsOctet(groups[i])
  }

  /** `est_adresse_ip_valide(ip)` applied to `str(ip)`. The pattern is anchored
      with `^` and `$` and applied with `re.match`; without the MULTILINE flag
      `$` also matches just before a newline that ends the string, so one
      trailing "\n" is tolerated. */
  predicate IsValidAddress(s: string)
  {
    IsDottedQuad(s) || (|s| > 0 && s[|s| - 1] == '\n' && IsDottedQuad(s[..|s| - 1]))
  }

  /** The octet sub-pattern `25[0-5]|2[0-4][0-9]|[01]?[0-9][0-9]?` alternative
      by alternative; `OctetPatternIsOctet` proves it is the numeric `IsOctet`. */
  predicate OctetPattern(g: string)
  {
    || (|g| == 3 && g[0] == '2' && g[1] == '5' && '0' <= g[2] <= '5')
    || (|g| == 3 && g[0] == '2' && '0' <= g[1] <= '4' && IsDigit(g[2]))
    || (|g| == 1 && IsDigit(g[0]))
    || (|g| == 2 && IsDigit(g[0]) && IsDigit(g[1]))
    || (|g| == 3 && (g[0] == '0' || g[0] == '1') && IsDigit(g[1]) && IsDigit(g[2]))
  }

  /** The value of a one-, two- or three-digit group, written out. */
  lemma ValueOfShortGroup(g: string)
    requires 1 <= |g| <= 3 && AllDigits(g)
    ensures |g| == 1 ==> Value(g) == DigitValue(g[0])
    ensures |g| == 2 ==> Value(g) == 10 * DigitValue(g[0]) + DigitValue(g[1])
    ensures |g| == 3 ==> Value(g) == 100 * DigitValue(g[0]) + 10 * DigitValue(g[1]) + DigitValue(g[2])
  {
    var g1 := g[..|g| - 1];
    if |g| >= 2 {
      var g2 := g1[..|g1| - 1];
      if |g| == 3 {
        assert Value(g2[..0]) == 0;
      } else {
        assert Value(g2) == 0;
      }
    } else {
      assert Value(g1) == 0;
    }
  }

  /** The regular-expression alternatives accept exactly the octets. */
  lemma OctetPatternIsOctet(g: string)
    ensures OctetPattern(g) <==> IsOctet(g)
  {
    if 1 <= |g| <= 3 && AllDigits(g) {
      ValueOfShortGroup(g);
    }
  }

  /** Groups without dots, joined by dots, form an address iff there are
      four of them and each is an octet. */
  lemma JoinedGroups(groups: seq<string>)
    requires |groups| >= 1 && forall i :: 0 <= i < |groups| ==> '.' !in groups[i]
    ensures IsDottedQuad(Join(groups, '.')) <==> |groups| == 4 && forall i :: 0 <= i < 4 ==> IsOctet(groups[i])
  {
    SplitJoin(groups, '.');
  }

  /** Four octets joined by dots are accepted. */
  lemma JoinedOctetsAccepted(groups: seq<string>)
    requires |groups| == 4 && forall i :: 0 <= i < 4 ==> IsOctet(groups[i])
    ensures IsDottedQuad(Join(groups, '.')) && IsValidAddress(Join(groups, '.'))
  {
    forall i | 0 <= i < 4 ensures '.' !in groups[i] {
      assert AllDigits(groups[i]);
    }
    JoinedGroups(groups);
  }

  /** The accepted addresses are exactly the strings made of four octets
      joined by dots. */
  lemma DottedQuadIffJoinedOctets(s: string)
    ensures IsDottedQuad(s) <==>
              exists groups :: |groups| == 4 && (forall i :: 0 <= i < 4 ==> IsOctet(groups[i]))
                               && s == Join(groups, '.')
  {
    if IsDottedQuad(s) {
      JoinSplit(s, '.');
      assert s == Join(Split(s, '.'), '.');
    }
    forall groups | |groups| == 4 && (forall i :: 0 <= i < 4 ==> IsOctet(groups[i])) && s == Join(groups, '.')
      ensures IsDottedQuad(s)
    {
      JoinedOctetsAccepted(groups);
    }
  }

  /** An accepted address holds only digits and dots: no sign, no space, no
      other separator. */
  lemma DottedQuadCharacters(s: string)
    ensures IsDottedQuad(s) ==> forall k :: 0 <= k < |s| ==> IsDigit(s[k]) || s[k] == '.'
  {
    if IsDottedQuad(s) {
      var groups := Split(s, '.');
      JoinSplit(s, '.');
      forall i, k | 0 <= i < |groups| && 0 <= k < |groups[i]| ensures IsDigit(groups[i][k]) || groups[i][k] == '.' {
        assert AllDigits(groups[i]);
      }
      JoinCharacters(groups, '.', c => IsDigit(c) || c == '.');
    }
  }

  /** A trailing newline is tolerated exactly once: `s + "\n"` is accepted iff
      `s` itself is an address, and two newlines are never accepted. */
  lemma TrailingNewline(s: string)
    ensures IsValidAddress(s + "\n") <==> IsDottedQuad(s)
    ensures !IsValidAddress(s + "\n\n")
  {
    var t, u := s + "\n", s + "\n\n";
    DottedQuadCharacters(t);
    assert t[|s|] == '\n';
    assert t[..|s|] == s;
    DottedQuadCharacters(u);
    assert u[|s| + 1] == '\n';
    assert u[..|u| - 1] == t;
  }

  /** Nothing but digits and dots is accepted, apart from one newline at
      the very end: no prefix, no other suffix, no inner space. */
  lemma AcceptedCharacters(s: string)
    ensures IsValidAddress(s) ==>
              forall k :: 0 <= k < |s| ==> IsDigit(s[k]) || s[k] == '.' || (k == |s| - 1 && s[k] == '\n')
  {
    DottedQuadCharacters(s);
    if |s| > 0 {
      DottedQuadCharacters(s[..|s| - 1]);
    }
  }

  /** The shortest decimal rendering of a natural number. */
  function DecimalText(n: nat): (t: string)
    ensures 1 <= |t| && AllDigits(t) && Value(t) == n
    ensures n < 256 ==> |t| <= 3
    decreases n
  {
    var last := ['0' + (n % 10) as char];
    var t := if n < 10 then last else DecimalText(n / 10) + last;
    assert t[..|t| - 1] == if n < 10 then [] else DecimalText(n / 10);
    t
  }

  /** Every four bytes written in decimal form an accepted address. */
  lemma RenderedBytesAccepted(bytes: seq<nat>)
    requires |bytes| == 4 && forall i :: 0 <= i < 4 ==> bytes[i] < 256
    ensures IsValidAddress(Join(seq(4, i requires 0 <= i < 4 => DecimalText(bytes[i])), '.'))
  {
    var groups := seq(4, i requires 0 <= i < 4 => DecimalText(bytes[i]));
    forall i | 0 <= i < 4 ensures IsOctet(groups[i]) {
      assert IsOctet(DecimalText(bytes[i]));
    }
    JoinedOctetsAccepted(groups);
  }

  /** An ordinary address is accepted. */
  lemma AcceptsAddress()
    ensures IsValidAddress("192.168.1.1")
  {
    var groups := ["192", "168", "1", "1"];
    ValueOfShortGroup("192");
    ValueOfShortGroup("168");
    ValueOfShortGroup("1");
    JoinedOctetsAccepted(groups);
    assert Join(groups, '.') == "192.168.1.1";
  }

  /** Leading zeros are accepted. */
  lemma AcceptsLeadingZeros()
    ensures IsValidAddress("001.0.0.0")
  {
    var groups := ["001", "0", "0", "0"];
    ValueOfShortGroup("001");
    ValueOfShortGroup("0");
    JoinedOctetsAccepted(groups);
    assert Join(groups, '.') == "001.0.0.0";
  }

  /** A group above 255 is rejected. */
  lemma RejectsGroupAbove255()
    ensures !IsValidAddress("192.168.1.256")
  {
    var groups := ["192", "168", "1", "256"];
    ValueOfShortGroup("256");
    JoinedGroups(groups);
    assert Join(groups, '.') == "192.168.1.256";
  }

  /** Three groups are rejected. */
  lemma RejectsThreeGroups()
    ensures !IsValidAddress("10.0.0")
  {
    var groups := ["10", "0", "0"];
    JoinedGroups(groups);
    assert Join(groups, '.') == "10.0.0";
  }

  /** Five groups are rejected. */
  lemma RejectsFiveGroups()
    ensures !IsValidAddress("1.2.3.4.5")
  {
    var groups := ["1", "2", "3", "4", "5"];
    JoinedGroups(groups);
    assert Join(groups, '.') == "1.2.3.4.5";
  }

  /** A group of four digits is rejected. */
  lemma RejectsFourDigitGroup()
    ensures !IsValidAddress("1234.0.0.0")
  {
    var groups := ["1234", "0", "0", "0"];
    JoinedGroups(groups);
    assert Join(groups, '.') == "1234.0.0.0";
  }

  /** Groups that are not digits are rejected. */
  lemma RejectsLetters()
    ensures !IsValidAddress("a.b.c.d")
  {
    var groups := ["a", "b", "c", "d"];
    assert !IsOctet(groups[0]);
    JoinedGroups(groups);
    assert Join(groups, '.') == "a.b.c.d";
  }
}

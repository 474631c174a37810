/** The parts of the Java platform that the chat server's logic depends on:
    the line streams of a socket, String.split(" "), the wrap-around of a
    32-bit int, Integer.toString and String.equalsIgnoreCase. */
module JavaLang {

  /** A possibly-null Java reference: None stands for null. */
  datatype Option<+T> = None | Some(value: T)

  /** The outcome of one BufferedReader.readLine() call. */
  datatype Input =
    | Line(text: string)   // one line, without its terminator
    | EndOfStream          // readLine() returned null
    | ReadError            // readLine() threw an IOException

  /** One write on a session's PrintWriter. */
  datatype Output =
    | Println(text: string)  // println(text)
    | Print(text: string)    // print(text): no line terminator follows
      // println(prefix + Arrays.toString(items.toArray()) + suffix): the element
      // order of a hash set is unspecified, so the listing keeps the items as a set
    | PrintlnListing(prefix: string, items: set<string>, suffix: string)

  // ---------------------------------------------------------------------------
  // String.split(" ")
  // ---------------------------------------------------------------------------

  /** The pieces of s between single spaces, every empty piece kept:
      "a  b " has the pieces "a", "", "b", "". */
  function Pieces(s: string): (r: seq<string>)
    ensures |r| >= 1
    ensures forall i :: 0 <= i < |r| ==> ' ' !in r[i]
  {
    if s == [] then [""]
    else
      var rest := Pieces(s[1..]);
      if s[0] == ' ' then [""] + rest else [[s[0]] + rest[0]] + rest[1..]
  }

  /** The pieces put back together, one space between neighbours. */
  function JoinSpaces(ps: seq<string>): string
    requires |ps| >= 1
  {
    if |ps| == 1 then ps[0] else ps[0] + " " + JoinSpaces(ps[1..])
  }

  /** Pieces loses nothing: joining the pieces gives back the string. */
  lemma {:induction false} JoinPieces(s: string)
    ensures JoinSpaces(Pieces(s)) == s
  {
    if s != [] {
      var rest := Pieces(s[1..]);
      JoinPieces(s[1..]);
      if s[0] == ' ' {
        assert Pieces(s) == [""] + rest;
        assert ([""] + rest)[1..] == rest;
      } else {
        var r := [[s[0]] + rest[0]] + rest[1..];
        assert Pieces(s) == r;
        if |rest| == 1 {
          assert r == [[s[0]] + rest[0]];
        } else {
          assert r[1..] == rest[1..];
          assert JoinSpaces(rest) == rest[0] + " " + JoinSpaces(rest[1..]);
        }
      }
    }
  }

  /** Pieces of a word w (no space) followed by s: w is glued to the first piece of s. */
  lemma {:induction false} PiecesOfWord(w: string, s: string)
    requires ' ' !in w
    ensures Pieces(w + s) == [w + Pieces(s)[0]] + Pieces(s)[1..]
  {
    if w != [] {
      PiecesOfWord(w[1..], s);
      var rest := Pieces(w[1..] + s);
      assert (w + s)[1..] == w[1..] + s;
      assert (w + s)[0] == w[0] && w[0] != ' ';
      assert Pieces(w + s) == [[w[0]] + rest[0]] + rest[1..];
      assert rest[0] == w[1..] + Pieces(s)[0] && rest[1..] == Pieces(s)[1..];
      assert [w[0]] + (w[1..] + Pieces(s)[0]) == w + Pieces(s)[0];
    } else {
      assert w + s == s;
      assert Pieces(s) == [Pieces(s)[0]] + Pieces(s)[1..];
      assert w + Pieces(s)[0] == Pieces(s)[0];
    }
  }

  /** The other half of the round trip: pieces without spaces, joined and split
      again, come back unchanged. */
  lemma {:induction false} PiecesOfJoin(ps: seq<string>)
    requires |ps| >= 1
    requires forall i :: 0 <= i < |ps| ==> ' ' !in ps[i]
    ensures Pieces(JoinSpaces(ps)) == ps
  {
    if |ps| == 1 {
      PiecesOfWord(ps[0], "");
      assert ps[0] + "" == ps[0];
    } else {
      var tail := JoinSpaces(ps[1..]);
      PiecesOfJoin(ps[1..]);
      assert Pieces(" " + tail) == [""] + Pieces(tail) by {
        assert (" " + tail)[1..] == tail;
      }
      PiecesOfWord(ps[0], " " + tail);
      assert ps[0] + " " + tail == ps[0] + (" " + tail);
      assert ps[0] + "" == ps[0];
    }
  }

  /** The longest prefix of ps that does not end with an empty string. */
  function DropTrailingEmpty(ps: seq<string>): (r: seq<string>)
    ensures |r| <= |ps| && r == ps[..|r|]
    ensures r == [] || r[|r| - 1] != ""
    ensures forall i :: |r| <= i < |ps| ==> ps[i] == ""
  {
    if ps != [] && ps[|ps| - 1] == "" then DropTrailingEmpty(ps[..|ps| - 1]) else ps
  }

  /** A string without a space is its own only piece. */
  lemma PiecesOfSpaceFree(s: string)
    requires ' ' !in s
    ensures Pieces(s) == [s]
  {
    PiecesOfWord(s, "");
    assert s + "" == s;
  }

  /** Java's s.split(" ") (limit 0): a string without a space is returned whole,
      even when it is empty; otherwise the pieces between the spaces with their
      trailing empty strings removed, so " ".split(" ") is the empty array.
      Joined with single spaces, the pieces give s back (JoinPieces). */
  function Split(s: string): (r: seq<string>)
    ensures forall i :: 0 <= i < |r| ==> ' ' !in r[i]
    ensures ' ' !in s ==> r == [s]
    ensures s == "" ==> r == [""]
    ensures s != "" ==> r == [] || r[|r| - 1] != ""
    ensures |r| <= |Pieces(s)| && r == Pieces(s)[..|r|]
    ensures forall i :: |r| <= i < |Pieces(s)| ==> Pieces(s)[i] == ""
  {
    if ' ' !in s then PiecesOfSpaceFree(s); [s] else DropTrailingEmpty(Pieces(s))
  }

  /** The index of the first space of s, or |s| when there is none. */
  function FirstSpace(s: string): (k: nat)
    ensures k <= |s|
    ensures ' ' !in s[..k]
    ensures k < |s| ==> s[k] == ' '
  {
    if s == [] then 0
    else if s[0] == ' ' then 0
    else
      var k := FirstSpace(s[1..]);
      assert s[..k + 1] == [s[0]] + s[1..][..k];
      k + 1
  }

  /** The first piece of s is its first word: everything before the first space. */
  lemma FirstPiece(s: string)
    ensures Pieces(s)[0] == s[..FirstSpace(s)]
  {
    var k := FirstSpace(s);
    var w := s[..k];
    assert s == w + s[k..];
    PiecesOfWord(w, s[k..]);
    if k < |s| {
      assert s[k..] == " " + s[k + 1..];
      assert Pieces(s[k..]) == [""] + Pieces(s[k + 1..]);
    }
    assert w + "" == w;
  }

  /** The first token of a line that does not start with a space is the
      line's first word: a non-empty prefix, followed by a space or by the end. */
  lemma SplitFirstWord(s: string)
    requires s != "" && s[0] != ' '
    ensures |Split(s)| >= 1
    ensures Split(s)[0] == s[..FirstSpace(s)]
    ensures var w := Split(s)[0]; w != "" && w[0] == s[0]
  {
    FirstPiece(s);
    assert FirstSpace(s) > 0;
    assert Pieces(s)[0] != "";
  }

  /** A word followed by a space and any text: the word is the first token. */
  lemma SplitWordThenSpace(w: string, rest: string)
    requires w != "" && ' ' !in w
    ensures |Split(w + " " + rest)| >= 1 && Split(w + " " + rest)[0] == w
  {
    var s := w + " " + rest;
    assert s == w + (" " + rest);
    PiecesOfWord(w, " " + rest);
    assert (" " + rest)[1..] == rest;
    assert Pieces(" " + rest)[0] == "";
    assert w + "" == w;
    assert Pieces(s)[0] == w;
  }

  /** Two words separated by one space split into exactly those two words. */
  lemma SplitTwoWords(a: string, b: string)
    requires a != "" && b != "" && ' ' !in a && ' ' !in b
    ensures Split(a + " " + b) == [a, b]
  {
    assert [a, b][1..] == [b];
    assert JoinSpaces([a, b]) == a + " " + b;
    PiecesOfJoin([a, b]);
    assert (a + " " + b)[|a|] == ' ';
  }

  // ---------------------------------------------------------------------------
  // 32-bit int arithmetic and Integer.toString
  // ---------------------------------------------------------------------------

  const MinInt: int := -0x8000_0000
  const MaxInt: int := 0x7fff_ffff

  predicate IsInt32(i: int) {
    MinInt <= i <= MaxInt
  }

  /** i++ on a Java int: two's-complement wrap-around at the top of the range. */
  function Increment(i: int): (r: int)
    requires IsInt32(i)
    ensures IsInt32(r)
    ensures (r - (i + 1)) % 0x1_0000_0000 == 0
  {
    if i == MaxInt then MinInt else i + 1
  }

  function Digit(d: nat): (c: char)
    requires d < 10
    ensures '0' <= c <= '9'
  {
    (48 + d) as char
  }

  /** The decimal numeral of n, most significant digit first. */
  function NatToString(n: nat): (r: string)
    ensures |r| >= 1
    ensures forall i :: 0 <= i < |r| ==> '0' <= r[i] <= '9'
    ensures |r| == 1 <==> n < 10
  {
    if n < 10 then [Digit(n)] else NatToString(n / 10) + [Digit(n % 10)]
  }

  /** Integer.toString(i): a minus sign before the numeral of a negative i. */
  function IntToString(i: int): string {
    if i < 0 then "-" + NatToString(-i) else NatToString(i)
  }

  /** Different numbers have different numerals. */
  lemma {:induction false} NatToStringInjective(a: nat, b: nat)
    requires NatToString(a) == NatToString(b)
    ensures a == b
  {
    if a >= 10 && b >= 10 {
      var sa, sb := NatToString(a), NatToString(b);
      assert sa[..|sa| - 1] == NatToString(a / 10);
      assert sb[..|sb| - 1] == NatToString(b / 10);
      NatToStringInjective(a / 10, b / 10);
      assert Digit(a % 10) == sa[|sa| - 1] == sb[|sb| - 1] == Digit(b % 10);
    } else {
      assert Digit(a % 10) == NatToString(a)[|NatToString(a)| - 1];
      assert Digit(b % 10) == NatToString(b)[|NatToString(b)| - 1];
    }
  }

  /** Integer.toString is injective: different ints print differently. */
  lemma IntToStringInjective(a: int, b: int)
    requires IntToString(a) == IntToString(b)
    ensures a == b
  {
    var sa, sb := IntToString(a), IntToString(b);
    assert (sa[0] == '-') == (a < 0) && (sb[0] == '-') == (b < 0);
    if a < 0 {
      assert sa[1..] == NatToString(-a) && sb[1..] == NatToString(-b);
      NatToStringInjective(-a, -b);
    } else {
      NatToStringInjective(a, b);
    }
  }

  // ---------------------------------------------------------------------------
  // String.equalsIgnoreCase, for ASCII text
  // ---------------------------------------------------------------------------

  function ToLowerAscii(c: char): char {
    if 'A' <= c <= 'Z' then (c as int + 32) as char else c
  }

  /** a.equalsIgnoreCase(b), comparing letters by their ASCII case folding. */
  function EqualsIgnoreCase(a: string, b: string): (r: bool)
    ensures r <==> |a| == |b| && forall i :: 0 <= i < |a| ==> ToLowerAscii(a[i]) == ToLowerAscii(b[i])
  {
    |a| == |b| && (a == [] || (ToLowerAscii(a[0]) == ToLowerAscii(b[0]) && EqualsIgnoreCase(a[1..], b[1..])))
  }
}

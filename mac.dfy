/** The MAC-address normalisation that `authorize_guest` applies before sending. */
module MacAddress {
  import Text

  /** What the normalisation does to one character: the separators `-` and `.`
      become `:`, ASCII capitals become lower-case, everything else stays. */
  function CanonicalChar(c: char): (r: char)
    ensures r != '-' && r != '.' && !('A' <= r <= 'Z')
    ensures c != '-' && c != '.' && !('A' <= c <= 'Z') ==> r == c
  {
    if c == '-' || c == '.' then ':' else Text.LowerChar(c)
  }

  /** `mac.lower().replace("-", ":").replace(".", ":")`: three rewrites of the whole
      string, which together act character by character as `CanonicalChar`. */
  function Normalize(mac: string): (r: string)
    ensures |r| == |mac|
    ensures forall k :: 0 <= k < |mac| ==> r[k] == CanonicalChar(mac[k])
  {
    Text.Replace(Text.Replace(Text.Lower(mac), '-', ':'), '.', ':')
  }

  /** No separator other than `:` and no capital is left; any other character is kept. */
  lemma NormalizedForm(mac: string)
    ensures var r := Normalize(mac);
      forall k :: 0 <= k < |r| ==> r[k] != '-' && r[k] != '.' && !('A' <= r[k] <= 'Z')
    ensures var r := Normalize(mac);
      forall k :: 0 <= k < |mac| && mac[k] != '-' && mac[k] != '.' && !('A' <= mac[k] <= 'Z') ==> r[k] == mac[k]
  {
  }

  /** Normalising twice is normalising once. */
  lemma NormalizeIdempotent(mac: string)
    ensures Normalize(Normalize(mac)) == Normalize(mac)
  {
    var r := Normalize(mac);
    assert forall k :: 0 <= k < |r| ==> Normalize(r)[k] == r[k];
  }

  /** Dash-separated capitals and dot-separated lower case give the same colon form. */
  lemma NormalizeExamples()
    ensures Normalize("AA-BB-CC-DD-EE-FF") == "aa:bb:cc:dd:ee:ff"
    ensures Normalize("aa.bb.cc.dd.ee.ff") == "aa:bb:cc:dd:ee:ff"
  {
    NormalizeGroups('A', 'B', 'C', 'D', 'E', 'F', '-');
    NormalizeGroups('a', 'b', 'c', 'd', 'e', 'f', '.');
  }

  /** Normalising acts on each character alone, so it distributes over concatenation. */
  lemma NormalizeAppend(s: string, t: string)
    ensures Normalize(s + t) == Normalize(s) + Normalize(t)
  {
    var r, q := Normalize(s + t), Normalize(s) + Normalize(t);
    forall k | 0 <= k < |s + t|
      ensures r[k] == q[k]
    {
      if k < |s| {
        assert (s + t)[k] == s[k];
      } else {
        assert (s + t)[k] == t[k - |s|];
      }
    }
  }

  /** Three groups of two characters, each group followed by a separator. */
  lemma NormalizeHalf(x: char, y: char, z: char, sep: char)
    requires sep == '-' || sep == '.'
    requires x != '-' && x != '.' && y != '-' && y != '.' && z != '-' && z != '.'
    ensures var lx, ly, lz := Text.LowerChar(x), Text.LowerChar(y), Text.LowerChar(z);
      Normalize([x, x, sep, y, y, sep, z, z, sep]) == [lx, lx, ':', ly, ly, ':', lz, lz, ':']
  {
    var r := Normalize([x, x, sep, y, y, sep, z, z, sep]);
    assert r == [r[0], r[1], r[2], r[3], r[4], r[5], r[6], r[7], r[8]];
  }

  /** Six two-character groups joined by one separator. */
  lemma NormalizeGroups(a: char, b: char, c: char, d: char, e: char, f: char, sep: char)
    requires sep == '-' || sep == '.'
    requires a != '-' && a != '.' && b != '-' && b != '.' && c != '-' && c != '.'
    requires d != '-' && d != '.' && e != '-' && e != '.' && f != '-' && f != '.'
    ensures var la, lb, lc := Text.LowerChar(a), Text.LowerChar(b), Text.LowerChar(c);
      var ld, le, lf := Text.LowerChar(d), Text.LowerChar(e), Text.LowerChar(f);
      Normalize([a, a, sep, b, b, sep, c, c, sep, d, d, sep, e, e, sep, f, f])
        == [la, la, ':', lb, lb, ':', lc, lc, ':', ld, ld, ':', le, le, ':', lf, lf]
  {
    var front, back := [a, a, sep, b, b, sep, c, c, sep], [d, d, sep, e, e, sep, f, f];
    NormalizeHalf(a, b, c, sep);
    var r := Normalize(back);
    assert r == [r[0], r[1], r[2], r[3], r[4], r[5], r[6], r[7]];
    NormalizeAppend(front, back);
    assert front + back == [a, a, sep, b, b, sep, c, c, sep, d, d, sep, e, e, sep, f, f];
  }
}

/**
 * The JavaScript string operations the task form and the search box rely on:
 * String.prototype.trim, split(','), join, toLowerCase and includes.
 */
module Text {
  import Seqs

  /** The characters String.prototype.trim removes: ECMAScript WhiteSpace and LineTerminator. */
  predicate IsSpace(c: char) {
    var n := c as int;
    9 <= n <= 13 || n == 0x20 || n == 0xA0 || n == 0x1680 || 0x2000 <= n <= 0x200A
    || n == 0x2028 || n == 0x2029 || n == 0x202F || n == 0x205F || n == 0x3000 || n == 0xFEFF
  }

  /** Every character of `s` is white space (true of the empty string). */
  predicate IsBlank(s: string) {
    forall k :: 0 <= k < |s| ==> IsSpace(s[k])
  }

  /** `s` neither starts nor ends with white space. */
  predicate IsTrimmed(s: string) {
    s == [] || (!IsSpace(s[0]) && !IsSpace(s[|s| - 1]))
  }

  /** `s` without its leading white space. */
  function TrimStart(s: string): (r: string)
    ensures |r| <= |s| && r == s[|s| - |r|..]
    ensures forall k :: 0 <= k < |s| - |r| ==> IsSpace(s[k])
    ensures r != [] ==> !IsSpace(r[0])
  {
    if s != [] && IsSpace(s[0]) then TrimStart(s[1..]) else s
  }

  /** `s` without its trailing white space. */
  function TrimEnd(s: string): (r: string)
    ensures |r| <= |s| && r == s[..|r|]
    ensures forall k :: |r| <= k < |s| ==> IsSpace(s[k])
    ensures r != [] ==> !IsSpace(r[|r| - 1])
  {
    if s != [] && IsSpace(s[|s| - 1]) then TrimEnd(s[..|s| - 1]) else s
  }

  /** String.prototype.trim. */
  function Trim(s: string): (r: string)
    ensures IsTrimmed(r)
    ensures r == [] <==> IsBlank(s)
    ensures |r| <= |s|
  {
    var t := TrimStart(s);
    var r := TrimEnd(t);
    TrimEmptyIffBlank(s, t, r);
    r
  }

  /** Trimming only removes white space at both ends: what is left is the slice between them. */
  lemma TrimIsSlice(s: string) returns (i: nat, j: nat)
    ensures i <= j <= |s| && Trim(s) == s[i..j]
    ensures IsBlank(s[..i]) && IsBlank(s[j..])
  {
    var t := TrimStart(s);
    var r := TrimEnd(t);
    i, j := |s| - |t|, |s| - |t| + |r|;
    CutSlices(s, t, r);
    BlankPrefix(s, i);
    BlankSuffix(s, j);
  }

  /**
   * Cutting a prefix off `s` to leave `t`, then a suffix off `t` to leave `r`, leaves the
   * slice of `s` where `r` sits; whatever held of the dropped suffix of `t` holds of `s` after it.
   */
  lemma CutSlices(s: string, t: string, r: string)
    requires |t| <= |s| && t == s[|s| - |t|..]
    requires |r| <= |t| && r == t[..|r|]
    requires forall k :: |r| <= k < |t| ==> IsSpace(t[k])
    ensures r == s[|s| - |t|..|s| - |t| + |r|]
    ensures forall k :: |s| - |t| + |r| <= k < |s| ==> IsSpace(s[k])
  {
    var i := |s| - |t|;
    assert s[i..][..|r|] == s[i..i + |r|];
    forall k | i + |r| <= k < |s| ensures IsSpace(s[k]) {
      assert s[k] == t[k - i];
    }
  }

  lemma BlankPrefix(s: string, n: nat)
    requires n <= |s| && forall k :: 0 <= k < n ==> IsSpace(s[k])
    ensures IsBlank(s[..n])
  {
    assert forall k :: 0 <= k < n ==> s[..n][k] == s[k];
  }

  lemma BlankSuffix(s: string, n: nat)
    requires n <= |s| && forall k :: n <= k < |s| ==> IsSpace(s[k])
    ensures IsBlank(s[n..])
  {
    assert forall k :: 0 <= k < |s| - n ==> s[n..][k] == s[n + k];
  }

  /** Trimming leaves nothing exactly when there was nothing but white space. */
  lemma TrimEmptyIffBlank(s: string, t: string, r: string)
    requires t == TrimStart(s) && r == TrimEnd(t)
    ensures IsTrimmed(r)
    ensures r == [] <==> IsBlank(s)
  {
    var cut := |s| - |t|;
    if r != [] {
      assert r[0] == t[0] == s[cut];
    } else {
      assert t == [];
    }
  }

  /** Trimming a trimmed string changes nothing; together with the ensures of Trim this makes Trim idempotent. */
  lemma TrimOfTrimmed(s: string)
    requires IsTrimmed(s)
    ensures Trim(s) == s
  {
  }

  lemma {:induction false} TrimStartBlankPrefix(lead: string, t: string)
    requires IsBlank(lead)
    requires t == [] || !IsSpace(t[0])
    ensures TrimStart(lead + t) == t
  {
    if lead != [] {
      assert (lead + t)[1..] == lead[1..] + t;
      TrimStartBlankPrefix(lead[1..], t);
    }
  }

  /** White space in front of a trimmed string is exactly what Trim removes. */
  lemma TrimBlankPrefix(lead: string, t: string)
    requires IsBlank(lead) && IsTrimmed(t)
    ensures Trim(lead + t) == t
  {
    TrimStartBlankPrefix(lead, t);
  }

  /** Trimming a string without commas leaves none. */
  lemma TrimKeepsCommaFree(s: string)
    ensures ',' !in s ==> ',' !in Trim(s)
  {
    var i, j := TrimIsSlice(s);
    assert forall c :: c in s[i..j] ==> c in s;
  }

  /** s.split(','): the pieces between commas, always at least one. */
  function SplitCommas(s: string): (r: seq<string>)
    ensures |r| >= 1
    ensures forall piece :: piece in r ==> ',' !in piece
  {
    if s == [] then [""]
    else
      var rest := SplitCommas(s[1..]);
      if s[0] == ',' then [""] + rest
      else
        assert rest[0] in rest;
        [[s[0]] + rest[0]] + rest[1..]
  }

  /** Array.prototype.join(sep). */
  function Join(ps: seq<string>, sep: string): string
  {
    if |ps| == 0 then ""
    else if |ps| == 1 then ps[0]
    else ps[0] + sep + Join(ps[1..], sep)
  }

  /** An empty first piece contributes only its separator. */
  lemma JoinEmptyHead(rest: seq<string>)
    requires |rest| >= 1
    ensures Join([""] + rest, ",") == "," + Join(rest, ",")
  {
    assert ([""] + rest)[1..] == rest;
  }

  /** Joining a piece in front of at least one more adds the piece and a separator. */
  lemma JoinCons(p: string, ps: seq<string>, sep: string)
    requires |ps| >= 1
    ensures Join([p] + ps, sep) == p + sep + Join(ps, sep)
  {
    assert ([p] + ps)[1..] == ps;
  }

  /** A character in front of the first piece ends up in front of the joined string. */
  lemma JoinExtendHead(c: char, first: string, tail: seq<string>)
    ensures Join([[c] + first] + tail, ",") == [c] + Join([first] + tail, ",")
  {
    if tail == [] {
      assert [[c] + first] + tail == [[c] + first];
      assert [first] + tail == [first];
    } else {
      JoinCons([c] + first, tail, ",");
      JoinCons(first, tail, ",");
    }
  }

  /** Splitting at commas and joining back with commas is the identity. */
  lemma {:induction false} SplitJoinRoundTrip(s: string)
    ensures Join(SplitCommas(s), ",") == s
  {
    if s != [] {
      SplitJoinRoundTrip(s[1..]);
      var rest := SplitCommas(s[1..]);
      assert s == [s[0]] + s[1..];
      if s[0] == ',' {
        JoinEmptyHead(rest);
      } else {
        JoinExtendHead(s[0], rest[0], rest[1..]);
        assert [rest[0]] + rest[1..] == rest;
      }
    }
  }

  /** A leading piece without commas comes out of split(',') whole. */
  lemma {:induction false} SplitAtFirstComma(a: string, b: string)
    requires ',' !in a
    ensures SplitCommas(a + "," + b) == [a] + SplitCommas(b)
  {
    if a != [] {
      assert (a + "," + b)[1..] == a[1..] + "," + b;
      SplitAtFirstComma(a[1..], b);
      assert (a + "," + b)[0] == a[0];
      assert [a[0]] + a[1..] == a;
    } else {
      assert a + "," + b == "," + b;
    }
  }

  /** A string without commas comes out of split(',') whole. */
  lemma {:induction false} SplitWithoutComma(a: string)
    requires ',' !in a
    ensures SplitCommas(a) == [a]
  {
    if a != [] {
      SplitWithoutComma(a[1..]);
      assert [a[0]] + a[1..] == a;
    }
  }

  /**
   * `.map(tag => tag.trim()).filter(tag => tag.length > 0)`: every piece trimmed,
   * the empty ones dropped, the others kept in order.
   */
  function CleanPieces(pieces: seq<string>): (tags: seq<string>)
    ensures |tags| <= |pieces|
    ensures forall tag :: tag in tags ==> tag != [] && IsTrimmed(tag)
    ensures (forall p :: p in pieces ==> ',' !in p) ==> forall tag :: tag in tags ==> ',' !in tag
  {
    if pieces == [] then []
    else
      var rest := CleanPieces(pieces[1..]);
      assert forall p :: p in pieces[1..] ==> p in pieces;
      var t := Trim(pieces[0]);
      TrimKeepsCommaFree(pieces[0]);
      if t == [] then rest else [t] + rest
  }

  /** The tag field: split at commas, trim every piece and keep the non-empty ones (script.js:328-331). */
  function ParseTags(text: string): (tags: seq<string>)
    ensures forall tag :: tag in tags ==> tag != [] && IsTrimmed(tag) && ',' !in tag
  {
    CleanPieces(SplitCommas(text))
  }

  /** Cleaning works piece by piece, so it distributes over concatenation. */
  lemma {:induction false} CleanPiecesConcat(a: seq<string>, b: seq<string>)
    ensures CleanPieces(a + b) == CleanPieces(a) + CleanPieces(b)
  {
    if a == [] {
      assert a + b == b;
    } else {
      assert (a + b)[0] == a[0] && (a + b)[1..] == a[1..] + b;
      CleanPiecesConcat(a[1..], b);
    }
  }

  /** A single piece cleans up to its trimmed form, or to nothing when that is empty. */
  lemma CleanSingle(piece: string)
    ensures CleanPieces([piece]) == if Trim(piece) == [] then [] else [Trim(piece)]
  {
    assert [piece][1..] == [];
  }

  /** A piece made of blank padding and a tag cleans up to that tag. */
  lemma CleanPaddedTag(lead: string, t: string)
    requires IsBlank(lead) && t != [] && IsTrimmed(t)
    ensures CleanPieces([lead + t]) == [t]
  {
    TrimBlankPrefix(lead, t);
    CleanSingle(lead + t);
  }

  /** Blank padding alone cleans up to no tag at all. */
  lemma CleanBlank(lead: string)
    requires IsBlank(lead) && ',' !in lead
    ensures CleanPieces(SplitCommas(lead)) == []
  {
    SplitWithoutComma(lead);
    assert [lead][1..] == [];
  }

  lemma JoinCommaSpace(lead: string, tags: seq<string>)
    requires |tags| >= 2
    ensures lead + Join(tags, ", ") == (lead + tags[0]) + "," + (" " + Join(tags[1..], ", "))
  {
    var j := Join(tags[1..], ", ");
    var t := tags[0];
    assert Join(tags, ", ") == t + ", " + j;
    assert ", " == "," + " ";
    calc {
      lead + (t + ", " + j);
      lead + (t + ("," + " ") + j);
      (lead + t) + "," + (" " + j);
    }
  }

  /** One tag behind blank padding. */
  lemma CleanOneTag(lead: string, t: string)
    requires IsBlank(lead) && ',' !in lead
    requires t != [] && IsTrimmed(t) && ',' !in t
    ensures CleanPieces(SplitCommas(lead + Join([t], ", "))) == [t]
  {
    assert Join([t], ", ") == t;
    assert ',' !in lead + t;
    SplitWithoutComma(lead + t);
    CleanPaddedTag(lead, t);
  }

  lemma {:induction false} TagsRoundTripFrom(lead: string, tags: seq<string>)
    requires IsBlank(lead) && ',' !in lead
    requires forall tag :: tag in tags ==> tag != [] && IsTrimmed(tag) && ',' !in tag
    ensures CleanPieces(SplitCommas(lead + Join(tags, ", "))) == tags
    decreases tags
  {
    if tags == [] {
      assert lead + Join(tags, ", ") == lead;
      CleanBlank(lead);
    } else if |tags| == 1 {
      assert tags == [tags[0]] && tags[0] in tags;
      CleanOneTag(lead, tags[0]);
    } else {
      var t, rest := tags[0], tags[1..];
      assert tags == [t] + rest;
      var tail := " " + Join(rest, ", ");
      var pieces := SplitCommas(tail);
      assert SplitCommas(lead + Join(tags, ", ")) == [lead + t] + pieces by {
        assert t in tags;
        assert ',' !in lead + t;
        JoinCommaSpace(lead, tags);
        SplitAtFirstComma(lead + t, tail);
      }
      assert CleanPieces([lead + t]) == [t] by {
        assert t in tags;
        CleanPaddedTag(lead, t);
      }
      assert CleanPieces(pieces) == rest by {
        assert forall tag :: tag in rest ==> tag in tags;
        TagsRoundTripFrom(" ", rest);
      }
      assert CleanPieces([lead + t] + pieces) == [t] + rest by {
        CleanPiecesConcat([lead + t], pieces);
      }
    }
  }

  /**
   * Tags written back into the form as "a, b, c" (script.js:314) parse to the same tags:
   * editing a task without touching its tag field keeps its tags.
   */
  lemma TagsRoundTrip(tags: seq<string>)
    requires forall tag :: tag in tags ==> tag != [] && IsTrimmed(tag) && ',' !in tag
    ensures ParseTags(Join(tags, ", ")) == tags
  {
    assert ParseTags(Join(tags, ", ")) == CleanPieces(SplitCommas(Join(tags, ", ")));
    TagsRoundTripFrom("", tags);
    assert "" + Join(tags, ", ") == Join(tags, ", ");
  }

  /** ASCII lower case; other characters are left as they are. */
  function LowerChar(c: char): char
  {
    if 'A' <= c <= 'Z' then (c as int + 32) as char else c
  }

  /** String.prototype.toLowerCase on the ASCII letters. */
  function Lower(s: string): (r: string)
    ensures |r| == |s|
    ensures forall k :: 0 <= k < |s| ==> !('A' <= r[k] <= 'Z')
    ensures forall k :: 0 <= k < |s| ==>
      if 'A' <= s[k] <= 'Z' then r[k] as int == s[k] as int + ('a' as int - 'A' as int) else r[k] == s[k]
  {
    Seqs.Map(s, LowerChar)
  }

  /** `q` occurs in `s` starting at index `i`. */
  predicate OccursAt(s: string, q: string, i: int) {
    0 <= i && i + |q| <= |s| && s[i..i + |q|] == q
  }

  /** String.prototype.includes. */
  predicate Contains(s: string, q: string) {
    q <= s || (s != [] && Contains(s[1..], q))
  }

  /** An occurrence at any index makes `includes` hold. */
  lemma {:induction false} OccursContains(s: string, q: string, i: int)
    requires OccursAt(s, q, i)
    ensures Contains(s, q)
    decreases i
  {
    if i == 0 {
      assert s[..|q|] == q;
    } else {
      assert s[1..][i - 1..i - 1 + |q|] == s[i..i + |q|];
      OccursContains(s[1..], q, i - 1);
    }
  }

  /** When `includes` holds, the query occurs at some index. */
  lemma {:induction false} ContainsOccurs(s: string, q: string) returns (i: nat)
    requires Contains(s, q)
    ensures OccursAt(s, q, i)
  {
    if q <= s {
      i := 0;
      assert s[..|q|] == q;
    } else {
      var j := ContainsOccurs(s[1..], q);
      assert s[1..][j..j + |q|] == s[j + 1..j + 1 + |q|];
      i := j + 1;
    }
  }

  /** `includes` holds exactly when the query occurs at some index. */
  lemma ContainsIffOccurs(s: string, q: string)
    ensures Contains(s, q) <==> exists i :: OccursAt(s, q, i)
  {
    if Contains(s, q) {
      var i := ContainsOccurs(s, q);
    }
    forall i | OccursAt(s, q, i) ensures Contains(s, q) {
      OccursContains(s, q, i);
    }
  }

  /** Lower-casing both sides keeps every occurrence: search is case-insensitive. */
  lemma OccursIgnoringCase(s: string, q: string, i: int)
    requires OccursAt(s, q, i)
    ensures OccursAt(Lower(s), Lower(q), i)
  {
    assert Lower(s)[i..i + |q|] == Lower(s[i..i + |q|]);
  }
}

/** Input validation shared by the editor and the credentials: blank-text
    detection, domain and subdomain validation, and the record type an IP
    address calls for (util.go). */
module Validation {
  import opened Model

  // ---------------------------------------------------------------------------
  // Blank text
  // ---------------------------------------------------------------------------

  /** Go's `unicode.IsSpace`: the ASCII spaces, NEL and NBSP in Latin-1, and
      the remaining characters with the Unicode White_Space property. */
  predicate IsSpace(c: char)
  {
    || c == '\t' || c == '\n' || c == '\U{000B}' || c == '\U{000C}' || c == '\r' || c == ' '
    || c == '\U{0085}' || c == '\U{00A0}' || c == '\U{1680}'
    || ('\U{2000}' <= c <= '\U{200A}')
    || c == '\U{2028}' || c == '\U{2029}' || c == '\U{202F}' || c == '\U{205F}' || c == '\U{3000}'
  }

  /** Drops leading white space. */
  function TrimLeft(s: string): (r: string)
    ensures |r| <= |s| && r == s[|s| - |r|..]
    ensures forall i :: 0 <= i < |s| - |r| ==> IsSpace(s[i])
    ensures |r| > 0 ==> !IsSpace(r[0])
  {
    if |s| > 0 && IsSpace(s[0]) then TrimLeft(s[1..]) else s
  }

  /** Drops trailing white space. */
  function TrimRight(s: string): (r: string)
    ensures |r| <= |s| && r == s[..|r|]
    ensures forall i :: |r| <= i < |s| ==> IsSpace(s[i])
    ensures |r| > 0 ==> !IsSpace(r[|r| - 1])
  {
    if |s| > 0 && IsSpace(s[|s| - 1]) then TrimRight(s[..|s| - 1]) else s
  }

  /** `r` is the slice of `s` starting at `a`, and only white space lies
      outside it. */
  predicate TrimmedSlice(s: string, r: string, a: nat)
  {
    && a + |r| <= |s| && r == s[a..a + |r|]
    && (forall i :: 0 <= i < a ==> IsSpace(s[i]))
    && (forall i :: a + |r| <= i < |s| ==> IsSpace(s[i]))
  }

  /** Go's `strings.TrimSpace`: the slice of the text left once the leading
      and trailing white space is removed. Nothing is left exactly when every
      character is white space, and what is left neither starts nor ends
      with it. */
  function TrimSpace(s: string): (r: string)
    ensures exists a: nat :: TrimmedSlice(s, r, a)
    ensures r == "" <==> forall i :: 0 <= i < |s| ==> IsSpace(s[i])
    ensures |r| > 0 ==> !IsSpace(r[0]) && !IsSpace(r[|r| - 1])
  {
    var l := TrimLeft(s);
    assert (exists k :: 0 <= k < |s| && !IsSpace(s[k])) ==> |l| > 0;
    TrimBothSlice(s, l, TrimRight(l));
    TrimRight(l)
  }

  /** Dropping a white-space prefix of `s` to get `l`, then a white-space
      suffix of `l` to get `r`, leaves the slice of `s` after the prefix,
      with only white space outside it. */
  lemma TrimBothSlice(s: string, l: string, r: string)
    requires |l| <= |s| && l == s[|s| - |l|..]
    requires forall i :: 0 <= i < |s| - |l| ==> IsSpace(s[i])
    requires |r| <= |l| && r == l[..|r|]
    requires forall i :: |r| <= i < |l| ==> IsSpace(l[i])
    ensures TrimmedSlice(s, r, |s| - |l|)
  {
    var a := |s| - |l|;
    assert s[a..a + |r|] == l[..|r|];
    forall i | a + |r| <= i < |s| ensures IsSpace(s[i]) {
      assert s[i] == l[i - a];
    }
  }

  /** `isEmpty`: blank means every character is white space, the empty text
      included. */
  function IsEmpty(text: string): (blank: bool)
    ensures blank <==> forall i :: 0 <= i < |text| ==> IsSpace(text[i])
  {
    TrimSpace(text) == ""
  }

  /** The blank inputs of util_test.go, including the en and em spaces. */
  lemma BlankExamples(text: string)
    requires text == "" || text == " " || text == "    " || text == "\U{2002}" || text == "\U{2003}"
    ensures IsEmpty(text)
  {
  }

  /** The non-blank inputs of util_test.go. */
  lemma NonBlankExamples(text: string)
    requires text == "-" || text == "." || text == " a " || text == " _ "
    ensures !IsEmpty(text)
  {
    if text == "-" || text == "." {
      NotBlank(text, 0);
    } else {
      NotBlank(text, 1);
    }
  }

  lemma NotBlank(text: string, i: nat)
    requires i < |text| && !IsSpace(text[i])
    ensures !IsEmpty(text)
  {
  }

  // ---------------------------------------------------------------------------
  // Lengths: Go's len counts UTF-8 bytes
  // ---------------------------------------------------------------------------

  /** Number of bytes the UTF-8 encoding of `c` takes. */
  function Utf8Width(c: char): (w: nat)
    ensures 1 <= w <= 4
    ensures w == 1 <==> c < '\U{0080}'
  {
    if c < '\U{0080}' then 1 else if c < '\U{0800}' then 2 else if c <= '\U{FFFF}' then 3 else 4
  }

  /** Go's `len` of a string: the length of its UTF-8 encoding, at least one
      and at most four bytes per character. */
  function ByteLen(s: string): (n: nat)
    ensures |s| <= n <= 4 * |s|
  {
    if |s| == 0 then 0 else Utf8Width(s[0]) + ByteLen(s[1..])
  }

  predicate IsAscii(s: string)
  {
    forall i :: 0 <= i < |s| ==> s[i] < '\U{0080}'
  }

  /** The byte length equals the character count exactly for ASCII text. */
  lemma {:induction false} AsciiByteLen(s: string)
    ensures ByteLen(s) == |s| <==> IsAscii(s)
  {
    if |s| > 0 {
      AsciiByteLen(s[1..]);
      if IsAscii(s) {
        assert IsAscii(s[1..]) by {
          forall i | 0 <= i < |s| - 1 ensures s[1..][i] < '\U{0080}' {
            assert s[1..][i] == s[i + 1];
          }
        }
      } else if Utf8Width(s[0]) == 1 {
        assert !IsAscii(s[1..]) by {
          var k :| 0 <= k < |s| && s[k] >= '\U{0080}';
          assert s[1..][k - 1] == s[k];
        }
      }
    }
  }

  // ---------------------------------------------------------------------------
  // Domains
  // ---------------------------------------------------------------------------

  /** `isValidDomain`: accepted exactly when the domain has a non-space
      character and fits in 255 bytes, so it has 1 to 255 characters. */
  function IsValidDomain(domain: string): (valid: bool)
    ensures valid <==> ByteLen(domain) <= 255 && exists i :: 0 <= i < |domain| && !IsSpace(domain[i])
    ensures valid ==> 0 < |domain| <= 255
  {
    if ByteLen(domain) > 255 then false else !IsEmpty(domain)
  }

  // ---------------------------------------------------------------------------
  // Subdomains
  // ---------------------------------------------------------------------------

  /** Go's `strings.Split(s, ".")`: the pieces between the dots, always at
      least one, the empty text giving one empty piece. */
  function Split(s: string): (parts: seq<string>)
    ensures |parts| >= 1
    ensures forall k :: 0 <= k < |parts| ==> '.' !in parts[k]
    decreases |s|
  {
    if |s| == 0 then [""]
    else if s[0] == '.' then [""] + Split(s[1..])
    else
      var rest := Split(s[1..]);
      [[s[0]] + rest[0]] + rest[1..]
  }

  /** Joins pieces with dots, the inverse of `Split`. */
  function Join(parts: seq<string>): string
    requires |parts| >= 1
  {
    if |parts| == 1 then parts[0] else parts[0] + "." + Join(parts[1..])
  }

  /** Joining the pieces gives back the text. */
  lemma {:induction false} JoinSplit(s: string)
    ensures Join(Split(s)) == s
    decreases |s|
  {
    if |s| > 0 {
      JoinSplit(s[1..]);
      var rest := Split(s[1..]);
      if s[0] == '.' {
        assert Split(s)[1..] == rest;
      } else if |rest| > 1 {
        assert Split(s)[1..] == rest[1..];
      }
    }
  }

  /** Splitting a join of dot-free pieces gives back the pieces. */
  lemma {:induction false} SplitJoin(parts: seq<string>)
    requires |parts| >= 1
    requires forall k :: 0 <= k < |parts| ==> '.' !in parts[k]
    ensures Split(Join(parts)) == parts
    decreases |parts|
  {
    if |parts| == 1 {
      SplitNoDot(parts[0]);
    } else {
      SplitJoin(parts[1..]);
      SplitAtDot(parts[0], Join(parts[1..]));
    }
  }

  lemma {:induction false} SplitNoDot(s: string)
    requires '.' !in s
    ensures Split(s) == [s]
    decreases |s|
  {
    if |s| > 0 {
      assert '.' !in s[1..] by {
        forall k | 0 <= k < |s| - 1 ensures s[1..][k] != '.' {
          assert s[1..][k] == s[k + 1];
        }
      }
      SplitNoDot(s[1..]);
      assert [s[0]] + s[1..] == s;
    }
  }

  lemma {:induction false} SplitAtDot(a: string, b: string)
    requires '.' !in a
    ensures Split(a + "." + b) == [a] + Split(b)
    decreases |a|
  {
    var s := a + "." + b;
    if |a| == 0 {
      assert s[1..] == b;
    } else {
      assert s[1..] == a[1..] + "." + b;
      assert '.' !in a[1..] by {
        forall k | 0 <= k < |a| - 1 ensures a[1..][k] != '.' {
          assert a[1..][k] == a[k + 1];
        }
      }
      SplitAtDot(a[1..], b);
      assert [a[0]] + a[1..] == a;
    }
  }

  /** `[A-Za-z0-9]` */
  predicate IsAlnum(c: char)
  {
    ('A' <= c <= 'Z') || ('a' <= c <= 'z') || ('0' <= c <= '9')
  }

  /** `[A-Za-z0-9\-]` */
  predicate IsAlnumOrHyphen(c: char)
  {
    IsAlnum(c) || c == '-'
  }

  /** The anchored label pattern of util.go:18,
      `^(?:[A-Za-z0-9][A-Za-z0-9\-]{0,61}[A-Za-z0-9]|[A-Za-z0-9])$`,
      written out branch by branch. Without the alternation: 1 to 63
      alphanumerics or hyphens, beginning and ending with an alphanumeric. */
  function IsLabel(part: string): (matches: bool)
    ensures matches <==>
              && 1 <= |part| <= 63 && IsAlnum(part[0]) && IsAlnum(part[|part| - 1])
              && forall i :: 0 <= i < |part| ==> IsAlnumOrHyphen(part[i])
  {
    || (|part| == 1 && IsAlnum(part[0]))
    || (2 <= |part| <= 63 && IsAlnum(part[0]) && IsAlnum(part[|part| - 1])
        && forall i :: 1 <= i < |part| - 1 ==> IsAlnumOrHyphen(part[i]))
  }

  /** A label is 1 to 63 ASCII characters with no dot, space, underscore or
      asterisk, and neither starts nor ends with a hyphen. */
  lemma LabelShape(part: string)
    requires IsLabel(part)
    ensures 1 <= |part| <= 63 && ByteLen(part) == |part|
    ensures part[0] != '-' && part[|part| - 1] != '-'
    ensures forall i :: 0 <= i < |part| ==> part[i] != '.' && part[i] != ' ' && part[i] != '_' && part[i] != '*'
  {
    assert IsAscii(part) by {
      forall i | 0 <= i < |part| ensures part[i] < '\U{0080}' {
        assert IsAlnumOrHyphen(part[i]);
      }
    }
    AsciiByteLen(part);
    forall i | 0 <= i < |part| ensures part[i] != '.' && part[i] != ' ' && part[i] != '_' && part[i] != '*' {
      assert IsAlnumOrHyphen(part[i]);
    }
  }

  /** The loop of util.go:46-55: each piece must fit in 63 bytes and match
      the pattern. The byte check never rejects a matching piece, so the loop
      accepts exactly when every piece matches. */
  function PartsValid(parts: seq<string>): (valid: bool)
    ensures valid <==> forall k :: 0 <= k < |parts| ==> IsLabel(parts[k])
    decreases |parts|
  {
    if |parts| == 0 then true
    else
      var rest := PartsValid(parts[1..]);
      assert forall k :: 1 <= k < |parts| ==> parts[k] == parts[1..][k - 1];
      if IsLabel(parts[0]) then LabelShape(parts[0]); ByteLen(parts[0]) <= 63 && rest
      else false
  }

  /** `isValidSubdomain`: accepted exactly when the text fits in 253 bytes
      and every dot-separated piece matches the label pattern. */
  function IsValidSubdomain(subdomain: string): (valid: bool)
    ensures valid ==>
              ByteLen(subdomain) <= 253 && forall k :: 0 <= k < |Split(subdomain)| ==> IsLabel(Split(subdomain)[k])
    ensures ByteLen(subdomain) <= 253 && (forall k :: 0 <= k < |Split(subdomain)| ==> IsLabel(Split(subdomain)[k])) ==>
              valid
  {
    if ByteLen(subdomain) > 253 then false else PartsValid(Split(subdomain))
  }

  /** Accepted subdomains are exactly the dot-joins of one or more labels
      whose total length is at most 253 characters. */
  lemma ValidSubdomainIsJoinOfLabels(subdomain: string, labels: seq<string>)
    requires |labels| >= 1 && Join(labels) == subdomain
    requires forall k :: 0 <= k < |labels| ==> IsLabel(labels[k])
    ensures IsValidSubdomain(subdomain) <==> |subdomain| <= 253
  {
    forall k | 0 <= k < |labels| ensures '.' !in labels[k] {
      LabelShape(labels[k]);
    }
    SplitJoin(labels);
    JoinOfLabelsIsAscii(labels);
    AsciiByteLen(subdomain);
  }

  lemma {:induction false} JoinOfLabelsIsAscii(labels: seq<string>)
    requires |labels| >= 1
    requires forall k :: 0 <= k < |labels| ==> IsLabel(labels[k])
    ensures IsAscii(Join(labels))
    decreases |labels|
  {
    LabelShape(labels[0]);
    AsciiByteLen(labels[0]);
    if |labels| > 1 {
      assert forall k :: 0 <= k < |labels| - 1 ==> labels[1..][k] == labels[k + 1];
      JoinOfLabelsIsAscii(labels[1..]);
      var j := Join(labels);
      assert j == labels[0] + "." + Join(labels[1..]);
      forall i | 0 <= i < |j| ensures j[i] < '\U{0080}' {
        if i < |labels[0]| {
          assert j[i] == labels[0][i];
        } else if i > |labels[0]| {
          assert j[i] == Join(labels[1..])[i - |labels[0]| - 1];
        }
      }
    }
  }

  /** An accepted subdomain is split into its labels by the validator itself. */
  lemma ValidSubdomainLabels(subdomain: string)
    requires IsValidSubdomain(subdomain)
    ensures |subdomain| <= 253 && Join(Split(subdomain)) == subdomain
    ensures forall k :: 0 <= k < |Split(subdomain)| ==> IsLabel(Split(subdomain)[k])
  {
    JoinSplit(subdomain);
  }

  /** A text that is too long is rejected, whatever its pieces. */
  lemma TooLongSubdomainRejected(subdomain: string)
    requires |subdomain| > 253
    ensures !IsValidSubdomain(subdomain)
  {
  }

  /** An empty piece never matches the pattern, so the empty text (one empty
      piece), a leading or trailing dot and two dots in a row are rejected. */
  lemma EmptyPieceRejected(subdomain: string)
    requires subdomain == [] || subdomain[0] == '.' || subdomain[|subdomain| - 1] == '.'
             || exists i :: 0 <= i < |subdomain| - 1 && subdomain[i] == '.' && subdomain[i + 1] == '.'
    ensures !IsValidSubdomain(subdomain)
  {
    var parts := Split(subdomain);
    if subdomain == [] {
      assert !IsLabel(parts[0]);
    } else if subdomain[0] == '.' {
      assert !IsLabel(parts[0]);
    } else if subdomain[|subdomain| - 1] == '.' {
      SplitTrailingDot(subdomain);
      assert !IsLabel(parts[|parts| - 1]);
    } else {
      var i :| 0 <= i < |subdomain| - 1 && subdomain[i] == '.' && subdomain[i + 1] == '.';
      var k := SplitDoubleDot(subdomain, i);
      assert !IsLabel(parts[k]);
    }
  }

  lemma {:induction false} SplitTrailingDot(s: string)
    requires |s| > 0 && s[|s| - 1] == '.'
    ensures Split(s)[|Split(s)| - 1] == ""
    decreases |s|
  {
    if |s| > 1 {
      SplitTrailingDot(s[1..]);
    }
  }

  /** The piece between two adjacent dots is empty; it is never the first piece. */
  lemma {:induction false} SplitDoubleDot(s: string, i: nat) returns (k: nat)
    requires i < |s| - 1 && s[i] == '.' && s[i + 1] == '.'
    ensures 1 <= k < |Split(s)| && Split(s)[k] == ""
    decreases |s|
  {
    if i == 0 {
      assert Split(s[1..])[0] == "";
      k := 1;
    } else {
      k := SplitDoubleDot(s[1..], i - 1);
      if s[0] == '.' {
        k := k + 1;
      }
    }
  }

  /** The accepted single-label inputs of util_test.go. */
  lemma AcceptedLabelExamples(subdomain: string)
    requires subdomain == "www" || subdomain == "w-w-w" || subdomain == "a" || subdomain == "1" || subdomain == "123"
    ensures IsValidSubdomain(subdomain)
  {
    AcceptLabel(subdomain);
  }

  /** "w.w.w" from util_test.go: three one-letter labels. */
  lemma AcceptedDottedExample()
    ensures IsValidSubdomain("w.w.w")
  {
    assert Join(["w", "w", "w"]) == "w.w.w";
    ValidSubdomainIsJoinOfLabels("w.w.w", ["w", "w", "w"]);
  }

  /** A run of letters and digits is accepted up to the 63 characters of the
      longest label in util_test.go, and rejected from 64 on. */
  lemma AlnumRunLimit(subdomain: string)
    requires |subdomain| > 0 && forall i :: 0 <= i < |subdomain| ==> IsAlnum(subdomain[i])
    ensures IsValidSubdomain(subdomain) <==> |subdomain| <= 63
  {
    assert '.' !in subdomain by {
      forall i | 0 <= i < |subdomain| ensures subdomain[i] != '.' {
        assert IsAlnum(subdomain[i]);
      }
    }
    SplitNoDot(subdomain);
    if IsLabel(subdomain) {
      LabelShape(subdomain);
    }
    if |subdomain| <= 63 {
      AcceptLabel(subdomain);
    }
  }

  /** The rejected inputs of util_test.go. */
  lemma RejectedExamples(subdomain: string)
    requires || subdomain == " www" || subdomain == "www " || subdomain == "w ww" || subdomain == "-a"
             || subdomain == "-hi-" || subdomain == "_hi_" || subdomain == "*hi*"
    ensures !IsValidSubdomain(subdomain)
  {
    if subdomain == "www " {
      RejectDotless(subdomain, 3);
    } else if subdomain == "w ww" {
      RejectDotless(subdomain, 1);
    } else {
      RejectDotless(subdomain, 0);
    }
  }

  lemma AcceptLabel(piece: string)
    requires IsLabel(piece)
    ensures IsValidSubdomain(piece)
  {
    ValidSubdomainIsJoinOfLabels(piece, [piece]);
  }

  lemma RejectDotless(s: string, i: nat)
    requires '.' !in s && i < |s|
    requires s[i] == ' ' || s[i] == '_' || s[i] == '*' || (s[i] == '-' && (i == 0 || i == |s| - 1))
    ensures !IsValidSubdomain(s)
  {
    SplitNoDot(s);
    if IsLabel(s) {
      LabelShape(s);
    }
  }

  // ---------------------------------------------------------------------------
  // Record type by IP
  // ---------------------------------------------------------------------------

  /** An IP address. `V4` stands for every address Go's `To4` can represent in
      four bytes (IPv4 and IPv4-mapped IPv6 addresses); `V6` for the rest. */
  datatype IP = V4(v4: seq<bv8>) | V6(v6: seq<bv8>)

  /** `getDNSRecordTypeByIP`: "A" for an IPv4-representable address, "AAAA" otherwise. */
  function RecordTypeByIP(ip: IP): (t: string)
    ensures t == TypeA || t == TypeAAAA
    ensures t == TypeA <==> ip.V4?
  {
    if !ip.V4? then TypeAAAA else TypeA
  }
}

/** The per-row text rules of the order filter: the phone trim, the order code, the
    first-name cut and the ten-character date key. */
module Columns {

  predicate StartsWith(s: string, prefix: string) {
    |prefix| <= |s| && s[..|prefix|] == prefix
  }

  // ---------------- Phone number and order code ----------------

  /** A phone whose text starts with `"2"` loses its first two characters (`str[2:]`,
      which is empty when the text is shorter); any other phone is kept. */
  function NormalisePhone(phone: string): (r: string)
    ensures StartsWith(phone, "2") ==> |r| == (if |phone| < 2 then 0 else |phone| - 2)
    ensures StartsWith(phone, "2") ==> phone == phone[..|phone| - |r|] + r
    ensures !StartsWith(phone, "2") ==> r == phone
  {
    if StartsWith(phone, "2") then
      if |phone| < 2 then [] else phone[2..]
    else
      phone
  }

  /** The phone test is a test of the first character. */
  lemma StartsWithTwo(phone: string)
    ensures StartsWith(phone, "2") <==> |phone| > 0 && phone[0] == '2'
  {
    if |phone| > 0 && phone[0] == '2' {
      assert phone[..1] == "2";
    }
  }

  /** `"20"` followed by the normalised phone, for every row. */
  function OrderCode(phone: string): (code: string)
    ensures StartsWith(code, "20") && code[2..] == NormalisePhone(phone)
  {
    "20" + NormalisePhone(phone)
  }

  /** The order code in terms of the original phone: a phone of two or more characters
      starting with `"2"` keeps its first character and has its second replaced by `'0'`;
      the phone `"2"` becomes `"20"`; any other phone gets `"20"` in front. */
  lemma OrderCodeOfPhone(phone: string)
    ensures StartsWith(phone, "2") && |phone| >= 2 ==> OrderCode(phone) == phone[1 := '0']
    ensures phone == "2" ==> OrderCode(phone) == "20"
    ensures !StartsWith(phone, "2") ==> OrderCode(phone) == "20" + phone
  {
    if StartsWith(phone, "2") && |phone| >= 2 {
      var code := OrderCode(phone);
      assert |code| == |phone|;
      forall k | 0 <= k < |phone|
        ensures code[k] == phone[1 := '0'][k]
      {
        if k >= 2 {
          assert code[k] == NormalisePhone(phone)[k - 2];
        }
      }
    }
  }

  /** A phone that already starts with `"20"` is its own order code. */
  lemma OrderCodeKeepsTwentyPrefix(phone: string)
    requires StartsWith(phone, "20")
    ensures OrderCode(phone) == phone
  {
    OrderCodeOfPhone(phone);
    assert phone[1] == '0';
    assert phone[1 := '0'] == phone;
  }

  // ---------------- Customer name ----------------

  /** `s.split(sep)` for a one-character separator: the pieces between separators,
      so `k` separators give `k + 1` pieces, some possibly empty. */
  function Split(s: string, sep: char): (pieces: seq<string>)
    ensures |pieces| >= 1
  {
    if s == [] then [[]]
    else
      var rest := Split(s[1..], sep);
      if s[0] == sep then [[]] + rest else [[s[0]] + rest[0]] + rest[1..]
  }

  /** `sep.join(pieces)`. */
  function Join(pieces: seq<string>, sep: char): string
    requires |pieces| >= 1
  {
    if |pieces| == 1 then pieces[0] else pieces[0] + [sep] + Join(pieces[1..], sep)
  }

  /** Splitting loses nothing: joining the pieces gives back the text, and no piece
      holds a separator. */
  lemma {:induction false} SplitJoin(s: string, sep: char)
    ensures Join(Split(s, sep), sep) == s
    ensures forall k :: 0 <= k < |Split(s, sep)| ==> sep !in Split(s, sep)[k]
  {
    if s != [] {
      var rest := Split(s[1..], sep);
      SplitJoin(s[1..], sep);
      if s[0] == sep {
        assert Split(s, sep)[1..] == rest;
        assert s == [] + [sep] + s[1..];
      } else {
        var pieces := Split(s, sep);
        if |rest| == 1 {
          assert s == [s[0]] + s[1..];
        } else {
          assert pieces[1..] == rest[1..];
          assert Join(rest, sep) == rest[0] + [sep] + Join(rest[1..], sep);
          assert s == [s[0]] + s[1..];
        }
        forall k | 0 <= k < |pieces|
          ensures sep !in pieces[k]
        {
          if k > 0 {
            assert pieces[k] == rest[k];
          }
        }
      }
    }
  }

  /** The first piece of a split is the text up to, not including, the first separator. */
  lemma {:induction false} SplitFirstPiece(s: string, sep: char)
    ensures sep !in Split(s, sep)[0]
    ensures StartsWith(s, Split(s, sep)[0])
    ensures |Split(s, sep)[0]| < |s| ==> s[|Split(s, sep)[0]|] == sep
  {
    if s != [] && s[0] != sep {
      SplitFirstPiece(s[1..], sep);
      var head := Split(s[1..], sep)[0];
      assert Split(s, sep)[0] == [s[0]] + head;
    }
  }

  /** `name.split(" ")[0]`: the name up to its first `' '` (a tab or other white space
      does not end it). */
  function FirstName(name: string): (first: string)
    ensures ' ' !in first
    ensures StartsWith(name, first)
    ensures |first| < |name| ==> name[|first|] == ' '
  {
    SplitFirstPiece(name, ' ');
    Split(name, ' ')[0]
  }

  /** The cases of the first-name cut that the three facts above pin down. */
  lemma FirstNameCases(name: string)
    ensures ' ' !in name ==> FirstName(name) == name
    ensures |name| > 0 && name[0] == ' ' ==> FirstName(name) == ""
    ensures forall i :: 0 <= i < |name| && name[i] == ' ' ==> |FirstName(name)| <= i
  {
    var first := FirstName(name);
    if |first| < |name| {
      assert name[|first|] in name;
    }
    forall i | 0 <= i < |first|
      ensures name[i] != ' '
    {
      assert name[i] == first[i];
    }
  }

  // ---------------- Delivery-date key ----------------

  /** `text[:10]`: the date part of a timestamp's text; the time of day is cut off. */
  function DateKey(text: string): (key: string)
    ensures |key| == if |text| < 10 then |text| else 10
    ensures StartsWith(text, key)
  {
    if |text| < 10 then text else text[..10]
  }

  /** Whatever follows the tenth character has no effect on the key. */
  lemma DateKeyIgnoresTail(text: string, tail: string)
    requires |text| >= 10
    ensures DateKey(text + tail) == DateKey(text)
  {
    assert (text + tail)[..10] == text[..10];
  }
}

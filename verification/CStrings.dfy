/** C strings and their order. */
module CStrings {

  /** `strcmp`, as -1, 0 or 1. Strings hold no NUL, so the shorter of two prefixes comes first. */
  function StrCmp(a: string, b: string): int {
    if a == "" then (if b == "" then 0 else -1)
    else if b == "" then 1
    else if a[0] < b[0] then -1
    else if a[0] > b[0] then 1
    else StrCmp(a[1..], b[1..])
  }

  lemma {:induction false} StrCmpEqual(a: string, b: string)
    ensures StrCmp(a, b) == 0 <==> a == b
    decreases |a|
  {
    if a != "" && b != "" && a[0] == b[0] {
      StrCmpEqual(a[1..], b[1..]);
      assert a == [a[0]] + a[1..] && b == [b[0]] + b[1..];
    }
  }

  /** The first character that differs decides; what ends first comes first. */
  lemma {:induction false} StrCmpMeaning(same: string, a: string, b: string)
    requires b != "" && (a == "" || a[0] < b[0])
    ensures StrCmp(same + a, same + b) < 0 < StrCmp(same + b, same + a)
    decreases |same|
  {
    if same == "" {
      assert same + a == a && same + b == b;
    } else {
      assert (same + a)[1..] == same[1..] + a && (same + b)[1..] == same[1..] + b;
      StrCmpMeaning(same[1..], a, b);
    }
  }

  lemma {:induction false} StrCmpFlips(a: string, b: string)
    ensures StrCmp(a, b) == -StrCmp(b, a)
    decreases |a|
  {
    if a != "" && b != "" && a[0] == b[0] {
      StrCmpFlips(a[1..], b[1..]);
    }
  }

  lemma {:induction false} StrCmpTransitive(a: string, b: string, c: string)
    requires StrCmp(a, b) <= 0 && StrCmp(b, c) <= 0
    ensures StrCmp(a, c) <= 0
    ensures StrCmp(a, b) < 0 || StrCmp(b, c) < 0 ==> StrCmp(a, c) < 0
    decreases |a|
  {
    if a != "" && b != "" && c != "" && a[0] == b[0] == c[0] {
      StrCmpTransitive(a[1..], b[1..], c[1..]);
    }
  }

  /** The C string at the start of a byte buffer: what precedes its first NUL. */
  function CStr(data: string): (s: string)
    ensures '\0' !in s && |s| <= |data| && s == data[..|s|] && (|s| < |data| ==> data[|s|] == '\0')
  {
    if data == "" || data[0] == '\0' then "" else [data[0]] + CStr(data[1..])
  }
}

/** The helpers of the server-rendered pages (static/js/main.js): reading one
    cookie out of `document.cookie` and capitalising a word. The cookie text
    and `decodeURIComponent` are parameters. */
module MainJs {
  import opened Common

  /** A cookie entry names `name` when, trimmed, it starts with `name=`. */
  predicate Names(entry: string, name: string) {
    IsPrefix(name + "=", Trim(entry))
  }

  /** The raw value of the first entry that names `name`. */
  function FindCookie(entries: seq<string>, name: string): (r: Option<string>)
    ensures r.Some? ==> exists i :: 0 <= i < |entries| && Names(entries[i], name)
    decreases |entries|
  {
    if entries == [] then None
    else if Names(entries[0], name) then Some(Trim(entries[0])[|name| + 1..])
    else FindCookie(entries[1..], name)
  }

  /** What `getCookie(name)` returns for the cookie text `cookie`, with
      `decode` standing for `decodeURIComponent`. */
  function CookieValue(cookie: string, name: string, decode: string -> string): Option<string> {
    if cookie == "" then None
    else match FindCookie(Split(cookie, ';'), name)
      case None => None
      case Some(v) => Some(decode(v))
  }

  /** `getCookie`: the entries split on `;` are trimmed and scanned in
      order; the first whose first `name.length + 1` characters (fewer when
      it is shorter) are `name=` gives the decoded rest. */
  method GetCookie(cookie: string, name: string, decode: string -> string) returns (cookieValue: Option<string>)
    ensures cookieValue == CookieValue(cookie, name, decode)
  {
    cookieValue := None;
    if cookie != "" {
      var cookies := Split(cookie, ';');
      var i := 0;
      while i < |cookies|
        invariant 0 <= i <= |cookies|
        invariant cookieValue.None?
        invariant FindCookie(cookies, name) == FindCookie(cookies[i..], name)
      {
        var c := Trim(cookies[i]);
        var end := if |c| < |name| + 1 then |c| else |name| + 1;
        assert cookies[i..][0] == cookies[i] && cookies[i..][1..] == cookies[i + 1..];
        if c[..end] == name + "=" {
          cookieValue := Some(decode(c[|name| + 1..]));
          break;
        }
        i := i + 1;
      }
    }
  }

  /** No value comes back exactly when the cookie text is empty or no entry
      names the cookie. */
  lemma {:induction false} FindCookieNone(entries: seq<string>, name: string)
    ensures FindCookie(entries, name).None? <==> forall i :: 0 <= i < |entries| ==> !Names(entries[i], name)
    decreases |entries|
  {
    if entries != [] {
      FindCookieNone(entries[1..], name);
      assert forall i :: 1 <= i < |entries| ==> entries[i] == entries[1..][i - 1];
    }
  }

  /** `getCookie` gives null exactly when the cookie text is empty or none
      of its entries names the cookie. */
  lemma CookieValueNone(cookie: string, name: string, decode: string -> string)
    ensures var entries := Split(cookie, ';');
            CookieValue(cookie, name, decode).None? <==>
              cookie == "" || forall i :: 0 <= i < |entries| ==> !Names(entries[i], name)
  {
    FindCookieNone(Split(cookie, ';'), name);
    if cookie != "" && FindCookie(Split(cookie, ';'), name).Some? {
      assert CookieValue(cookie, name, decode) == Some(decode(FindCookie(Split(cookie, ';'), name).value));
    }
  }

  /** The first entry that names the cookie wins over any later one. */
  lemma {:induction false} FirstEntryWins(entries: seq<string>, name: string, k: nat)
    requires k < |entries| && Names(entries[k], name)
    requires forall j :: 0 <= j < k ==> !Names(entries[j], name)
    ensures FindCookie(entries, name) == Some(Trim(entries[k])[|name| + 1..])
    decreases k
  {
    if k > 0 {
      assert !Names(entries[0], name);
      FirstEntryWins(entries[1..], name, k - 1);
    }
  }

  /** An entry of another cookie never names this one when neither name
      holds `=`, even when one name starts the other: "ab=1" is not cookie
      "a". */
  lemma OtherNameNoMatch(name: string, other: string, value: string)
    requires '=' !in name && '=' !in other && name != other
    ensures !IsPrefix(name + "=", other + "=" + value)
  {
    var e := other + "=" + value;
    var p := name + "=";
    if |name| < |other| {
      assert p[|name|] == '=' && e[|name|] == other[|name|] != '=';
    } else if |name| > |other| && |p| <= |e| {
      assert e[|other|] == '=' && p[|other|] == name[|other|] != '=';
    } else if |name| == |other| {
      assert e[..|name|] == other && p[..|name|] == name;
    }
  }

  lemma PrefixNameIsOtherCookie(decode: string -> string)
    ensures CookieValue("ab=1", "a", decode) == None
    ensures CookieValue("ab=1", "ab", decode) == Some(decode("1"))
  {
    SplitNoSep("ab=1", ';');
    TrimNoWhitespace("ab=1");
    OtherNameNoMatch("a", "ab", "1");
    assert "ab=1" == "ab" + "=" + "1";
    assert ("ab=1")[..3] == "ab" + "=";
  }

  /** A single cookie `name=value` written without `;` and without white
      space reads back as its value. */
  lemma SingleCookieRoundTrip(name: string, value: string, decode: string -> string)
    requires ';' !in name && ';' !in value
    requires forall i :: 0 <= i < |name| ==> !IsWhitespace(name[i])
    requires forall i :: 0 <= i < |value| ==> !IsWhitespace(value[i])
    ensures CookieValue(name + "=" + value, name, decode) == Some(decode(value))
  {
    var c := name + "=" + value;
    assert forall i :: 0 <= i < |c| ==> !IsWhitespace(c[i]) by {
      forall i | 0 <= i < |c|
        ensures !IsWhitespace(c[i])
      {
        if i < |name| {
          assert c[i] == name[i];
        } else if i > |name| {
          assert c[i] == value[i - |name| - 1];
        }
      }
    }
    assert ';' !in c by {
      forall i | 0 <= i < |c|
        ensures c[i] != ';'
      {
        if i < |name| {
          assert c[i] == name[i];
        } else if i > |name| {
          assert c[i] == value[i - |name| - 1];
        }
      }
    }
    SplitNoSep(c, ';');
    TrimNoWhitespace(c);
    assert c[..|name| + 1] == name + "=";
    assert c[|name| + 1..] == value;
  }

  /** `capitalizeFirst`: the first character upper-cased, the rest as it
      is; the empty string stays empty. */
  function CapitalizeFirst(s: string): (r: string)
    ensures |r| == |s|
    ensures |s| > 0 ==> r[0] == UpperChar(s[0]) && r[1..] == s[1..]
  {
    if s == "" then "" else [UpperChar(s[0])] + s[1..]
  }

  /** Capitalising twice is capitalising once. */
  lemma CapitalizeTwice(s: string)
    ensures CapitalizeFirst(CapitalizeFirst(s)) == CapitalizeFirst(s)
  {
  }
}

/** The locale switcher (code/frontend/app/components/LanguageSwitcher.tsx, with the locale
    constants of code/frontend/baselhack_pax/i18n/routing.ts): it reads the locale prefix off
    the current pathname and, when another language is chosen, pushes the same page under the
    new prefix. The router's `push` is modelled by returning the URL it would be given. */
module LanguageSwitcher {
  import opened Wrappers
  import Text

  /** `locales` and `defaultLocale` of the routing configuration. */
  const Locales: seq<string> := ["en", "de", "fr", "it"]
  const DefaultLocale: string := "en"

  /** The dropdown order. */
  const Order: seq<string> := ["en", "fr", "de", "it"]

  /** JavaScript truthiness of an optional string: present and not "". */
  predicate Truthy(s: Option<string>) {
    s.Some? && s.value != ""
  }

  /** `usePathname() || "/"`. */
  function Pathname(p: Option<string>): (r: string)
    ensures Truthy(p) ==> r == p.value
    ensures !Truthy(p) ==> r == "/"
  {
    if Truthy(p) then p.value else "/"
  }

  /** `pathname.split("/").filter(Boolean)`: the non-empty segments of the pathname. */
  function Parts(pathname: string): (parts: seq<string>)
    ensures forall i :: 0 <= i < |parts| ==> parts[i] != "" && '/' !in parts[i]
  {
    Text.NonEmpty(Text.Split(pathname, '/'))
  }

  /** `locales.includes(parts[0])`; with no segment, `parts[0]` is `undefined`. */
  predicate HasLocale(parts: seq<string>) {
    |parts| > 0 && parts[0] in Locales
  }

  /** The locale the page is shown in. */
  function Current(pathname: string): (l: string)
    ensures l in Locales
    ensures HasLocale(Parts(pathname)) ==> l == Parts(pathname)[0]
    ensures !HasLocale(Parts(pathname)) ==> l == DefaultLocale
  {
    var parts := Parts(pathname);
    if HasLocale(parts) then parts[0] else DefaultLocale
  }

  /** The pathname without its locale prefix: the remaining segments behind one "/" when there
      is a prefix, the whole pathname when there is none. */
  function Rest(pathname: string): (r: string)
    ensures HasLocale(Parts(pathname)) ==> r == "/" + Text.Join(Parts(pathname)[1..], '/')
    ensures !HasLocale(Parts(pathname)) ==> r == pathname
  {
    var parts := Parts(pathname);
    if HasLocale(parts) then "/" + Text.Join(parts[1..], '/') else pathname
  }

  /** `qs ? "?" + qs : ""`, where `qs` is the search string (absent without search params). */
  function Query(qs: Option<string>): (q: string)
    ensures Truthy(qs) ==> q == "?" + qs.value
    ensures !Truthy(qs) ==> q == ""
  {
    if Truthy(qs) then "?" + qs.value else ""
  }

  /** The path part of the URL pushed when `next` is chosen. */
  function SwitchedPath(pathname: string, next: string): (r: string)
    ensures |r| > |next| && r[..|next| + 1] == "/" + next
    ensures r[|next| + 1..] == Rest(pathname)
  {
    "/" + next + Rest(pathname)
  }

  /** `onChange(next)`: nothing for a cleared selection, otherwise the URL
      "/" + next + rest + query. */
  function Target(pathname: string, qs: Option<string>, next: Option<string>): (url: Option<string>)
    ensures url.None? <==> !Truthy(next)
    ensures url.Some? ==> url.value == SwitchedPath(pathname, next.value) + Query(qs)
  {
    if !Truthy(next) then None else Some(SwitchedPath(pathname, next.value) + Query(qs))
  }

  /** `ORDER.filter(l => locales.includes(l))`. */
  function InLocales(order: seq<string>): (r: seq<string>)
    ensures forall i :: 0 <= i < |r| ==> r[i] in Locales && r[i] in order
    decreases |order|
  {
    if order == [] then []
    else (if order[0] in Locales then [order[0]] else []) + InLocales(order[1..])
  }

  /** The display name of each locale. */
  function Label(l: string): (r: string)
    ensures r != "" <==> l in Locales
  {
    if l == "en" then "English"
    else if l == "de" then "Deutsch"
    else if l == "fr" then "Français"
    else if l == "it" then "Italiano"
    else ""
  }

  datatype Choice = Choice(value: string, caption: string)

  /** The dropdown entries: the ordered locales with their labels. */
  function Options(): (r: seq<Choice>)
    ensures |r| == |InLocales(Order)|
    ensures forall i :: 0 <= i < |r| ==> r[i] == Choice(InLocales(Order)[i], Label(InLocales(Order)[i]))
  {
    var ls := InLocales(Order);
    seq(|ls|, i requires 0 <= i < |ls| => Choice(ls[i], Label(ls[i])))
  }

  // ---------------------------------------------------------------------------------------
  // Properties

  /** Filtering the dropdown order by the configured locales keeps all four of them. */
  lemma OrderFiltered()
    ensures InLocales(Order) == ["en", "fr", "de", "it"]
  {
    var tail := Order[1..][1..][1..];
    assert tail == ["it"] && tail[1..] == [];
  }

  /** The display names of the four locales. */
  lemma LabelNames()
    ensures Label("en") == "English" && Label("fr") == "Français"
    ensures Label("de") == "Deutsch" && Label("it") == "Italiano"
  {
  }

  /** The dropdown lists each of the four locales under its own name. */
  lemma OptionsListed()
    ensures Options() == [Choice("en", "English"), Choice("fr", "Français"),
                          Choice("de", "Deutsch"), Choice("it", "Italiano")]
  {
    OrderFiltered();
    LabelNames();
  }

  /** The dropdown offers English, French, German and Italian in that order: every locale once
      and nothing else. */
  lemma OptionsOrder()
    ensures InLocales(Order) == ["en", "fr", "de", "it"]
    ensures forall l :: l in Locales <==> l in InLocales(Order)
    ensures Options() == [Choice("en", "English"), Choice("fr", "Français"),
                          Choice("de", "Deutsch"), Choice("it", "Italiano")]
  {
    OrderFiltered();
    OptionsListed();
  }

  /** A bare locale prefix leaves "/" as the rest: the page is the locale's home page. */
  lemma BareLocale(l: string)
    requires l in Locales
    ensures Parts("/" + l) == [l]
    ensures Current("/" + l) == l && Rest("/" + l) == "/"
  {
    assert '/' !in l;
    Text.SplitWithoutSeparator(l, '/');
    assert ("/" + l)[1..] == l;
    assert Text.Split("/" + l, '/') == [""] + [l];
    assert Text.NonEmpty([""] + [l]) == [l];
  }

  /** A leading "/" adds an empty first segment, which `Parts` drops. */
  lemma PartsOfSlash(x: string)
    ensures Parts("/" + x) == Parts(x)
  {
    var s := "/" + x;
    assert s[0] == '/' && s[1..] == x;
    assert Text.Split(s, '/') == [""] + Text.Split(x, '/');
    Text.NonEmptyAppend([""], Text.Split(x, '/'));
  }

  /** Without a pathname the page is the English home page "/". */
  lemma MissingPathname(p: Option<string>)
    requires !Truthy(p)
    ensures Pathname(p) == "/" && Parts(Pathname(p)) == []
    ensures Current(Pathname(p)) == DefaultLocale && Rest(Pathname(p)) == "/"
  {
    PartsOfSlash("");
    assert "/" + "" == "/";
    assert Text.Split("", '/') == [""];
    assert Text.NonEmpty([""]) == [];
  }

  /** Segments of a path that begins with "/", a segment and a rest that begins with "/". */
  lemma PartsOfPrefixed(w: string, rest: string)
    requires w != "" && '/' !in w
    requires |rest| > 0 && rest[0] == '/'
    ensures Parts("/" + w + rest) == [w] + Parts(rest)
  {
    var tail := rest[1..];
    assert rest == "/" + tail;
    assert w + rest == w + ['/'] + tail;
    Text.SplitAppend(w, tail, '/');
    Text.SplitWithoutSeparator(w, '/');
    var pieces := Text.Split(tail, '/');
    assert Text.Split(w + rest, '/') == [w] + pieces;
    Text.NonEmptyAppend([w], pieces);
    assert Text.NonEmpty([w]) == [w];
    assert Parts(w + rest) == [w] + Parts(tail);
    PartsOfSlash(w + rest);
    PartsOfSlash(tail);
    assert "/" + w + rest == "/" + (w + rest);
  }

  /** The segments the rest of a pathname holds: those after the locale prefix when there is
      one, all of them when there is none. */
  lemma PartsOfRest(pathname: string)
    ensures HasLocale(Parts(pathname)) ==> Parts(Rest(pathname)) == Parts(pathname)[1..]
    ensures !HasLocale(Parts(pathname)) ==> Parts(Rest(pathname)) == Parts(pathname)
  {
    var parts := Parts(pathname);
    if HasLocale(parts) {
      var tail := parts[1..];
      var r := "/" + Text.Join(tail, '/');
      assert r[1..] == Text.Join(tail, '/');
      assert Text.Split(r, '/') == [""] + Text.Split(Text.Join(tail, '/'), '/');
      Text.NonEmptyAppend([""], Text.Split(Text.Join(tail, '/'), '/'));
      if tail == [] {
        assert Text.Split(Text.Join(tail, '/'), '/') == [""];
      } else {
        assert forall i :: 0 <= i < |tail| ==> tail[i] == parts[i + 1];
        Text.SplitJoin(tail, '/');
        Text.NonEmptyKeepsNonEmpty(tail);
      }
    }
  }

  /** A pathname that begins with "/" has a rest that begins with "/". */
  lemma RestIsAbsolute(pathname: string)
    requires |pathname| > 0 && pathname[0] == '/'
    ensures |Rest(pathname)| > 0 && Rest(pathname)[0] == '/'
  {
  }

  /** The path pushed for locale `next` holds the segments `next`, then those of the page
      without its old prefix. */
  lemma SwitchedParts(pathname: string, next: string)
    requires |pathname| > 0 && pathname[0] == '/'
    requires next in Locales
    ensures Parts(SwitchedPath(pathname, next)) ==
            [next] + (if HasLocale(Parts(pathname)) then Parts(pathname)[1..] else Parts(pathname))
  {
    assert next != "" && '/' !in next;
    RestIsAbsolute(pathname);
    assert SwitchedPath(pathname, next) == "/" + next + Rest(pathname);
    PartsOfPrefixed(next, Rest(pathname));
    PartsOfRest(pathname);
  }

  /** Reading the pushed path back gives the locale that was chosen. */
  lemma SwitchedCurrent(pathname: string, next: string)
    requires |pathname| > 0 && pathname[0] == '/'
    requires next in Locales
    ensures Current(SwitchedPath(pathname, next)) == next
  {
    SwitchedParts(pathname, next);
  }

  /** Switching to `a` and then to `b` reaches the page that switching to `b` directly reaches. */
  lemma SwitchTwice(pathname: string, a: string, b: string)
    requires |pathname| > 0 && pathname[0] == '/'
    requires a in Locales && b in Locales
    ensures Parts(SwitchedPath(SwitchedPath(pathname, a), b)) == Parts(SwitchedPath(pathname, b))
  {
    SwitchedParts(pathname, a);
    SwitchedParts(pathname, b);
    var p := SwitchedPath(pathname, a);
    SwitchedParts(p, b);
    assert ([a] + (if HasLocale(Parts(pathname)) then Parts(pathname)[1..] else Parts(pathname)))[1..] ==
           (if HasLocale(Parts(pathname)) then Parts(pathname)[1..] else Parts(pathname));
  }

  /** Without a locale prefix the page is shown in English and the whole pathname is kept. */
  lemma NoPrefix(pathname: string)
    requires Parts(pathname) == [] || Parts(pathname)[0] !in Locales
    ensures Current(pathname) == DefaultLocale && Rest(pathname) == pathname
  {
  }
}

/**
  * The dashboard page script (app.js): the naive CSV reader `parseCSV`, the
  * carousel's index arithmetic, the role kept in `localStorage` and the rule
  * that shows admin-only elements to the admin role alone.
  */
module Dashboard {
  import opened Wrappers
  import opened JsString
  import opened Browser

  // ---------------------------------------------------------------------
  // parseCSV: split into lines, drop empty lines, first row is the header,
  // every later row becomes an object keyed by the trimmed header cells.
  // No quoting and no escaped commas.
  // ---------------------------------------------------------------------

  /** A parsed row: the object `Object.fromEntries` builds, trimmed header cell to trimmed value. */
  type Record = map<string, string>

  /** One trailing carriage return removed: the `\r?` of the separator `/\r?\n/`. */
  function DropCR(line: string): (r: string)
    ensures line != [] && line[|line| - 1] == '\r' ==> r == line[..|line| - 1]
    ensures line == [] || line[|line| - 1] != '\r' ==> r == line
    ensures '\r' !in line ==> r == line
  {
    if line != [] && line[|line| - 1] == '\r' then line[..|line| - 1] else line
  }

  /**
    * `text.split(/\r?\n/)`: a piece per line feed plus one; a carriage
    * return right before a line feed belongs to the separator, so every line
    * but the last loses one final `\r`.
    */
  function SplitLines(text: string): (lines: seq<string>)
    ensures |lines| == Count(text, '\n') + 1
    ensures forall i :: 0 <= i < |lines| ==> '\n' !in lines[i]
    ensures forall i :: 0 <= i < |lines| - 1 ==> lines[i] == DropCR(Split(text, '\n')[i])
    ensures lines[|lines| - 1] == Split(text, '\n')[|lines| - 1]
    ensures '\r' !in text ==> lines == Split(text, '\n')
  {
    var parts := Split(text, '\n');
    var lines := seq(|parts|, i requires 0 <= i < |parts| => if i < |parts| - 1 then DropCR(parts[i]) else parts[i]);
    assert forall i :: 0 <= i < |lines| ==> '\n' !in lines[i] by {
      forall i | 0 <= i < |lines| ensures '\n' !in lines[i] {
        assert forall c :: c in lines[i] ==> c in parts[i];
      }
    }
    assert '\r' !in text ==> lines == parts by {
      if '\r' !in text {
        forall i | 0 <= i < |parts| ensures lines[i] == parts[i] {
          assert '\r' !in parts[i];
        }
      }
    }
    lines
  }

  /**
    * `.filter(Boolean)` on strings: the non-empty ones, in their order. Every
    * non-empty line is kept as often as it occurs, and nothing else is kept.
    */
  function NonEmpty(lines: seq<string>): (r: seq<string>)
    ensures |r| <= |lines|
    ensures forall l :: l in r <==> l in lines && l != []
    ensures forall l :: l != [] ==> multiset(r)[l] == multiset(lines)[l]
    ensures multiset(r)[[]] == 0
  {
    if lines == [] then []
    else
      assert lines == [lines[0]] + lines[1..];
      (if lines[0] == [] then [] else [lines[0]]) + NonEmpty(lines[1..])
  }

  /** Filtering keeps the order: the non-empty lines of `a + b` are those of `a`, then those of `b`. */
  lemma {:induction false} NonEmptyAppend(a: seq<string>, b: seq<string>)
    ensures NonEmpty(a + b) == NonEmpty(a) + NonEmpty(b)
  {
    if a == [] {
      assert a + b == b;
    } else {
      assert (a + b)[1..] == a[1..] + b;
      NonEmptyAppend(a[1..], b);
    }
  }

  /** The rows `parseCSV` works on: the non-empty lines of `text`. */
  function Rows(text: string): seq<string> {
    NonEmpty(SplitLines(text))
  }

  /** `cells[i] || ''`: the cell in column `i`, or `''` when the row is shorter. */
  function Cell(cells: seq<string>, i: nat): string {
    if i < |cells| then cells[i] else ""
  }

  /**
    * `Object.fromEntries(entries)`: the entries are added left to right, so
    * a later entry overwrites an earlier one with the same key.
    */
  function FromEntries(entries: seq<(string, string)>): Record
  {
    if entries == [] then map[]
    else
      var n := |entries| - 1;
      FromEntries(entries[..n])[entries[n].0 := entries[n].1]
  }

  /** Entry `j` is the last one with its key. */
  predicate IsLastEntry(entries: seq<(string, string)>, j: int) {
    0 <= j < |entries| && forall j' :: j < j' < |entries| ==> entries[j'].0 != entries[j].0
  }

  /**
    * Every entry's key is a key of the object, every key of the object comes
    * from an entry, and the value of a key is that of its last entry.
    */
  lemma {:induction false} FromEntriesLastWins(entries: seq<(string, string)>)
    ensures forall j :: 0 <= j < |entries| ==> entries[j].0 in FromEntries(entries)
    ensures forall j :: IsLastEntry(entries, j) ==> FromEntries(entries)[entries[j].0] == entries[j].1
    ensures forall k :: k in FromEntries(entries) ==>
      exists j :: IsLastEntry(entries, j) && entries[j].0 == k
    decreases |entries|
  {
    if entries != [] {
      var n := |entries| - 1;
      var prev := entries[..n];
      FromEntriesLastWins(prev);
      var m := FromEntries(prev);
      assert FromEntries(entries) == m[entries[n].0 := entries[n].1];
      assert IsLastEntry(entries, n);
      forall j | 0 <= j < n ensures entries[j].0 in FromEntries(entries) {
        assert prev[j] == entries[j];
      }
      forall j | IsLastEntry(entries, j) && j < n
        ensures FromEntries(entries)[entries[j].0] == entries[j].1
      {
        assert prev[j] == entries[j];
        assert IsLastEntry(prev, j) by {
          forall j' | j < j' < n ensures prev[j'].0 != prev[j].0 {
            assert prev[j'] == entries[j'];
          }
        }
      }
      forall k | k in FromEntries(entries) && k != entries[n].0
        ensures exists j :: IsLastEntry(entries, j) && entries[j].0 == k
      {
        var j :| IsLastEntry(prev, j) && prev[j].0 == k;
        assert prev[j] == entries[j];
        assert IsLastEntry(entries, j) by {
          forall j' | j < j' < |entries| ensures entries[j'].0 != entries[j].0 {
            if j' < n { assert prev[j'] == entries[j']; }
          }
        }
      }
    }
  }

  /** The entries `head.map((h, i) => [h.trim(), (cells[i] || '').trim()])`. */
  function Entries(head: seq<string>, cells: seq<string>): (entries: seq<(string, string)>)
    ensures |entries| == |head|
  {
    seq(|head|, i requires 0 <= i < |head| => (Trim(head[i]), Trim(Cell(cells, i))))
  }

  /** The record a row of `cells` makes under the header row `head`. */
  function RecordOf(head: seq<string>, cells: seq<string>): Record {
    FromEntries(Entries(head, cells))
  }

  /** The records the data rows make under the header cells `head`, one per row. */
  function RecordsOf(head: seq<string>, rows: seq<string>): (records: seq<Record>)
    ensures |records| == |rows|
    ensures forall i :: 0 <= i < |rows| ==> records[i] == RecordOf(head, Split(rows[i], ','))
  {
    seq(|rows|, i requires 0 <= i < |rows| => RecordOf(head, Split(rows[i], ',')))
  }

  /** The records of `rows`: the first row is the header, every later row gives one record. */
  function RowsToRecords(rows: seq<string>): (records: seq<Record>)
    ensures rows == [] ==> records == []
    ensures rows != [] ==> |records| == |rows| - 1
    ensures forall i :: 0 <= i < |records| ==> records[i] == RecordOf(Split(rows[0], ','), Split(rows[i + 1], ','))
  {
    if rows == [] then []
    else
      var records := RecordsOf(Split(rows[0], ','), rows[1..]);
      assert forall i :: 0 <= i < |records| ==> rows[1..][i] == rows[i + 1];
      records
  }

  /** `parseCSV(text)`: one record per row after the header row, in order. */
  function ParseCSV(text: string): (records: seq<Record>)
    ensures Rows(text) == [] ==> records == []
    ensures Rows(text) != [] ==> |records| == |Rows(text)| - 1
    ensures forall i :: 0 <= i < |records| ==>
      records[i] == RecordOf(Split(Rows(text)[0], ','), Split(Rows(text)[i + 1], ','))
  {
    RowsToRecords(Rows(text))
  }

  /** Column `j` is the last one whose trimmed header is `Trim(head[j])`: the one `fromEntries` keeps. */
  predicate IsLastColumn(head: seq<string>, j: int) {
    0 <= j < |head| && forall j' :: j < j' < |head| ==> Trim(head[j']) != Trim(head[j])
  }

  /**
    * `r` is what a row of `cells` under the header `head` should give: its
    * keys are exactly the trimmed header cells (cells beyond the header are
    * dropped); under a repeated header the last column wins; a row shorter
    * than the header gives `''`; every value is trimmed.
    */
  ghost predicate FitsHeader(head: seq<string>, cells: seq<string>, r: Record) {
    && (forall j :: 0 <= j < |head| ==> Trim(head[j]) in r)
    && (forall k :: k in r ==> exists j :: 0 <= j < |head| && Trim(head[j]) == k)
    && (forall j :: IsLastColumn(head, j) ==> r[Trim(head[j])] == if j < |cells| then Trim(cells[j]) else "")
    && (forall k :: k in r ==> IsTrimmed(r[k]))
  }

  /** The record built from a row fits the header row. */
  lemma RecordShape(head: seq<string>, cells: seq<string>)
    ensures FitsHeader(head, cells, RecordOf(head, cells))
  {
    var es := Entries(head, cells);
    FromEntriesLastWins(es);
    assert forall j :: 0 <= j < |head| ==> es[j].0 == Trim(head[j]);
    forall j | IsLastColumn(head, j) ensures IsLastEntry(es, j) { }
    forall k | k in RecordOf(head, cells) ensures IsTrimmed(RecordOf(head, cells)[k]) {
      var j :| IsLastEntry(es, j) && es[j].0 == k;
    }
  }

  /** Record `i` of `parseCSV(text)` fits the header row, built from row `i + 1`. */
  lemma ParsedRecord(text: string, i: nat)
    requires i < |ParseCSV(text)|
    ensures FitsHeader(Split(Rows(text)[0], ','), Split(Rows(text)[i + 1], ','), ParseCSV(text)[i])
  {
    RecordShape(Split(Rows(text)[0], ','), Split(Rows(text)[i + 1], ','));
  }

  /** Windows line endings: every line feed preceded by a carriage return. */
  function CrLf(text: string): string {
    if text == [] then []
    else (if text[0] == '\n' then "\r\n" else [text[0]]) + CrLf(text[1..])
  }

  /** The pieces of a split with a carriage return added to each but the last. */
  function WithCR(parts: seq<string>): seq<string> {
    seq(|parts|, i requires 0 <= i < |parts| => if i < |parts| - 1 then parts[i] + "\r" else parts[i])
  }

  /** A leading separator makes an empty first piece. */
  lemma SplitAfterSeparator(s: string, sep: char)
    ensures Split([sep] + s, sep) == [[]] + Split(s, sep)
  {
    assert ([sep] + s)[1..] == s;
  }

  /** Any other leading character joins the first piece. */
  lemma SplitAfterOther(c: char, s: string, sep: char)
    requires c != sep
    ensures Split([c] + s, sep) == [[c] + Split(s, sep)[0]] + Split(s, sep)[1..]
  {
    assert ([c] + s)[1..] == s;
  }

  lemma WithCRAfterEmpty(p: seq<string>)
    requires |p| >= 1
    ensures WithCR([[]] + p) == ["\r"] + WithCR(p)
  {
    assert WithCR([[]] + p)[0] == "\r";
    forall i | 0 <= i < |p| ensures WithCR([[]] + p)[i + 1] == WithCR(p)[i] {
      assert ([[]] + p)[i + 1] == p[i];
    }
  }

  lemma WithCRAfterOther(c: char, p: seq<string>)
    requires |p| >= 1
    ensures WithCR([[c] + p[0]] + p[1..]) == [[c] + WithCR(p)[0]] + WithCR(p)[1..]
  {
    assert [c] + (p[0] + "\r") == ([c] + p[0]) + "\r";
  }

  /** Splitting Windows line endings at the line feeds leaves the carriage returns on the pieces. */
  lemma {:induction false} SplitCrLf(text: string)
    requires '\r' !in text
    ensures Split(CrLf(text), '\n') == WithCR(Split(text, '\n'))
  {
    if text != [] {
      var t := text[1..];
      assert '\r' !in t by { assert forall c :: c in t ==> c in text; }
      SplitCrLf(t);
      var x := CrLf(t);
      assert text == [text[0]] + t;
      if text[0] == '\n' {
        var y := ['\n'] + x;
        assert CrLf(text) == ['\r'] + y;
        SplitAfterOther('\r', y, '\n');
        SplitAfterSeparator(x, '\n');
        assert Split(y, '\n')[0] == [] && Split(y, '\n')[1..] == Split(x, '\n');
        assert ['\r'] + [] == "\r";
        assert Split(CrLf(text), '\n') == ["\r"] + Split(x, '\n');
        SplitAfterSeparator(t, '\n');
        assert Split(text, '\n') == [[]] + Split(t, '\n');
        WithCRAfterEmpty(Split(t, '\n'));
      } else {
        assert CrLf(text) == [text[0]] + x;
        SplitAfterOther(text[0], x, '\n');
        SplitAfterOther(text[0], t, '\n');
        WithCRAfterOther(text[0], Split(t, '\n'));
      }
    }
  }

  /** Replacing every `\n` by `\r\n` (in text without `\r`) gives the same lines. */
  lemma SplitLinesCrLf(text: string)
    requires '\r' !in text
    ensures SplitLines(CrLf(text)) == SplitLines(text)
  {
    SplitCrLf(text);
    var parts := Split(text, '\n');
    forall i | 0 <= i < |parts| ensures '\r' !in parts[i] { }
    forall i | 0 <= i < |parts| - 1 ensures DropCR(parts[i] + "\r") == parts[i] {
      assert (parts[i] + "\r")[..|parts[i]|] == parts[i];
    }
  }

  /** `parseCSV` reads files with Unix and with Windows line endings alike. */
  lemma ParseCSVCrLf(text: string)
    requires '\r' !in text
    ensures ParseCSV(CrLf(text)) == ParseCSV(text)
  {
    SplitLinesCrLf(text);
  }

  // ---------------------------------------------------------------------
  // Carousel: `idx = (idx + d + slides.length) % slides.length`
  // ---------------------------------------------------------------------

  /** JavaScript's quotient `Math.trunc(a / n)`: rounded toward zero. */
  function TruncDiv(a: int, n: int): int
    requires n > 0
  {
    if a >= 0 then a / n else -((-a) / n)
  }

  /**
    * JavaScript's `%`: the remainder of the division rounded toward zero,
    * so `a == TruncDiv(a, n) * n + r` and the sign follows the dividend.
    */
  function JsRem(a: int, n: int): (r: int)
    requires n > 0
    ensures a == TruncDiv(a, n) * n + r
    ensures -n < r < n
    ensures a >= 0 ==> 0 <= r
    ensures a < 0 ==> r <= 0
  {
    if a >= 0 then
      var r := a % n;
      assert a == (a / n) * n + r;
      r
    else
      var q, m := (-a) / n, (-a) % n;
      assert -a == q * n + m;
      -m
  }

  /** Below twice the divisor, a non-negative dividend loses the divisor at most once. */
  lemma JsRemBelowTwice(a: int, n: int)
    requires n > 0 && 0 <= a < 2 * n
    ensures a < n ==> JsRem(a, n) == a
    ensures n <= a ==> JsRem(a, n) == a - n
  {
    if a < n {
      assert a % n == a;
    } else {
      assert (a - n) % n == a - n;
      assert a % n == (a - n) % n;
    }
  }

  /** The index after `go(d)` on a carousel of `n` slides. */
  function Step(idx: int, d: int, n: int): int
    requires n > 0
  {
    JsRem(idx + d + n, n)
  }

  /** One step either way keeps the index among the slides and wraps around at both ends. */
  lemma StepInRange(idx: int, d: int, n: int)
    requires n > 0 && 0 <= idx < n && (d == -1 || d == 1)
    ensures 0 <= Step(idx, d, n) < n
    ensures d == 1 ==> Step(idx, d, n) == if idx == n - 1 then 0 else idx + 1
    ensures d == -1 ==> Step(idx, d, n) == if idx == 0 then n - 1 else idx - 1
  {
    var a := idx + d + n;
    if d == 1 && idx == n - 1 {
      assert a == 2 * n;
      assert (2 * n) % n == 0;
    } else {
      JsRemBelowTwice(a, n);
    }
  }

  /** `go(+1)` then `go(-1)` comes back to the same slide, and so does the opposite order. */
  lemma StepBack(idx: int, n: int)
    requires n > 0 && 0 <= idx < n
    ensures Step(Step(idx, 1, n), -1, n) == idx
    ensures Step(Step(idx, -1, n), 1, n) == idx
  {
    StepInRange(idx, 1, n);
    StepInRange(idx, -1, n);
    StepInRange(Step(idx, 1, n), -1, n);
    StepInRange(Step(idx, -1, n), 1, n);
  }

  datatype Slide = Slide(src: string, alt: string)

  /** The slides `initCarousel` shows. */
  const Slides: seq<Slide> := [
    Slide("linea-kaltenbach.png", "L\U{ED}nea Kaltenbach"),
    Slide("logo_mantenimiento.png", "Mantenimiento CDL")
  ]

  /** The carousel's state: its fixed slides and the closure variable `idx`. */
  class Carousel {
    const slides: seq<Slide>
    var idx: int

    ghost predicate Valid()
      reads this
    {
      0 <= idx < |slides|
    }

    constructor ()
      ensures Valid() && slides == Slides && idx == 0
    {
      slides := Slides;
      idx := 0;
    }

    /** `go(d)`: the previous (`d == -1`) or next (`d == 1`) slide, wrapping around. */
    method Go(d: int)
      requires |slides| > 0
      modifies this
      ensures idx == Step(old(idx), d, |slides|)
      ensures old(Valid()) && (d == -1 || d == 1) ==> Valid()
    {
      if Valid() && (d == -1 || d == 1) {
        StepInRange(idx, d, |slides|);
      }
      idx := JsRem(idx + d + |slides|, |slides|);
    }
  }

  // ---------------------------------------------------------------------
  // Role kept in localStorage under 'cdl_role', and admin-only elements.
  // ---------------------------------------------------------------------

  const RoleKey := "cdl_role"
  const GuestRole := "invitado"
  const AdminRole := "admin"

  /** `getRole()`: the stored role, or `'invitado'` when nothing or `''` is stored. */
  function GetRole(store: LocalStorage): (role: string)
    reads store
    ensures role != ""
    ensures RoleKey in store.items && store.items[RoleKey] != "" ==> role == store.items[RoleKey]
    ensures RoleKey !in store.items || store.items[RoleKey] == "" ==> role == GuestRole
  {
    match store.GetItem(RoleKey)
    case Some(r) => if r != "" then r else GuestRole
    case None => GuestRole
  }

  /** `setRole(r)`: stores `r`; the next `getRole()` returns it, or `'invitado'` for `''`. */
  method SetRole(store: LocalStorage, r: string)
    modifies store
    ensures store.items == old(store.items)[RoleKey := r]
    ensures GetRole(store) == if r == "" then GuestRole else r
  {
    store.SetItem(RoleKey, r);
  }

  /** The elements `querySelectorAll('[data-role="admin"]')` selects. */
  predicate AdminTagged(e: Element) {
    e.dataRole == Some(AdminRole)
  }

  /**
    * `enforceRoleVisibility()`: every admin-tagged element is hidden exactly
    * when the role is not `'admin'`; no other element changes.
    */
  method EnforceRoleVisibility(store: LocalStorage, elements: seq<Element>)
    modifies set e | e in elements
    ensures forall e :: e in elements && AdminTagged(e) ==> e.hidden == (GetRole(store) != AdminRole)
    ensures forall e :: e in elements && !AdminTagged(e) ==> e.hidden == old(e.hidden)
  {
    var role := GetRole(store);
    var i := 0;
    while i < |elements|
      invariant 0 <= i <= |elements|
      invariant forall j :: 0 <= j < i && AdminTagged(elements[j]) ==> elements[j].hidden == (role != AdminRole)
      invariant forall e :: e in elements && !AdminTagged(e) ==> e.hidden == old(e.hidden)
    {
      var el := elements[i];
      if AdminTagged(el) {
        el.hidden := role != AdminRole;
      }
      i := i + 1;
    }
  }
}

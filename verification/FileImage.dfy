/** A column file as a reader finds it: all its pages in order, the current one last. */
module FileImages {
  import opened Options
  import opened Values
  import opened ColumnPages
  import opened ColumnFiles
  import opened Tables

  type Pages = seq<PageImage>

  datatype FileImage = FileImage(kind: Kind, pages: Pages)

  /** The number of rows on the first `k` pages. */
  function PageStart(pages: Pages, k: nat): nat
    requires k <= |pages|
  {
    if k == 0 then 0 else PageStart(pages, k - 1) + pages[k - 1].count
  }

  function PageValues(pages: Pages, k: nat): (vs: seq<Value>)
    requires k <= |pages|
    ensures |vs| == PageStart(pages, k)
  {
    if k == 0 then [] else PageValues(pages, k - 1) + Contents(pages[k - 1])
  }

  ghost predicate ImageOk(f: FileImage) {
    && CapacityOf(f.kind) >= 1 && f.pages != []
    && (forall i :: 0 <= i < |f.pages| ==> PageOf(f.kind, f.pages[i]))
    && (forall i :: 0 <= i < |f.pages| - 1 ==> FullPage(f.kind, f.pages[i]))
  }

  /** The image holds these values and is one of such a column. */
  ghost predicate Holds(k: Kind, f: FileImage, vs: seq<Value>) {
    ImageOk(f) && f.kind == k && PageValues(f.pages, |f.pages|) == vs
  }

  /** The columns are those that the files hold. */
  ghost predicate Backed(schema: Schema, files: seq<FileImage>, cols: Columns) {
    |files| == |cols| == |schema| && forall c :: 0 <= c < |cols| ==> Holds(schema[c], files[c], cols[c])
  }

  // ---- the image of a file ----

  /** The first `n` pages of the disk, and then the current page. */
  ghost function PagesIn(disk: seq<Option<PageImage>>, last: PageImage, n: nat): (pages: Pages)
    ensures |pages| == n + 1 && pages[n] == last
    ensures forall i :: 0 <= i < n && i < |disk| && disk[i].Some? ==> pages[i] == disk[i].value
  {
    seq(n + 1, i => if 0 <= i < n && i < |disk| && disk[i].Some? then disk[i].value else last)
  }

  ghost function ImageOf(f: ColumnFile): FileImage
    requires f.Valid()
    reads f, f.page
  {
    FileImage(f.kind, PagesIn(f.disk, f.page.img, f.currentId))
  }

  lemma {:induction false} PagesHold(k: Kind, disk: seq<Option<PageImage>>, last: PageImage, n: nat, m: nat)
    requires FullPages(k, disk, n) && m <= n
    ensures PageValues(PagesIn(disk, last, n), m) == Stored(disk, m)
  {
    hide Contents, PageOk, PagesIn;
    if m > 0 {
      PagesHold(k, disk, last, n, m - 1);
      assert disk[m - 1].Some? && PagesIn(disk, last, n)[m - 1] == disk[m - 1].value;
    }
  }

  lemma {:induction false} PagesOk(k: Kind, disk: seq<Option<PageImage>>, last: PageImage, n: nat)
    requires CapacityOf(k) >= 1 && FullPages(k, disk, n) && PageOf(k, last)
    ensures Holds(k, FileImage(k, PagesIn(disk, last, n)), Stored(disk, n) + Contents(last))
  {
    hide Contents, PageOk, PagesIn, Stored, CapacityOf;
    PagesHold(k, disk, last, n, n);
    var pages := PagesIn(disk, last, n);
    forall i | 0 <= i < |pages|
      ensures PageOf(k, pages[i]) && (i < |pages| - 1 ==> FullPage(k, pages[i]))
    {
      if i < n {
        assert disk[i].Some? && FullPage(k, disk[i].value) && pages[i] == disk[i].value;
      }
    }
  }

  /** The pages of a file are in order and hold its rows, so their bounds hold for every row. */
  lemma {:induction false} FileHolds(f: ColumnFile)
    requires f.Valid()
    ensures Holds(f.kind, ImageOf(f), f.Rows())
  {
    PagesOk(f.kind, f.disk, f.page.img, f.currentId);
    hide Holds, Contents, Stored, PageOf, FullPages, PagesIn, CapacityOf;
  }

  /** Visits every page of a file. */
  method ScanPages(f: ColumnFile) returns (img: FileImage)
    requires f.Valid()
    ensures img == ImageOf(f) && Holds(f.kind, img, f.Rows())
  {
    var pages: Pages := [];
    hide Contents, PageOk, Stored, PageOf, PagesIn, CapacityOf;
    ghost var all := ImageOf(f).pages;
    var id := 0;
    while id <= f.currentId
      invariant id == |pages| <= f.currentId + 1 && pages == all[..id]
    {
      var p := f.ReadPage(id);
      assert p.value == all[id];
      pages := pages + [p.value];
      id := id + 1;
    }
    img := FileImage(f.kind, pages);
    FileHolds(f);
    hide Holds;
  }

  /** The pages as they are on the disk once the file has been written. */
  function OnDisk(pages: Pages): (d: seq<Option<PageImage>>)
    ensures |d| == |pages| && forall i :: 0 <= i < |pages| ==> d[i] == Some(pages[i])
  {
    seq(|pages|, i requires 0 <= i < |pages| => Some(pages[i]))
  }

  lemma {:induction false} DiskHolds(pages: Pages, n: nat)
    requires n <= |pages|
    ensures Stored(OnDisk(pages), n) == PageValues(pages, n)
  {
    hide Contents;
    if n > 0 {
      DiskHolds(pages, n - 1);
    }
  }

  lemma {:induction false} OpenOk(img: FileImage)
    requires ImageOk(img)
    ensures FullPages(img.kind, OnDisk(img.pages), |img.pages| - 1)
  {
    hide PageOf;
  }

  /** Opens the file with these pages. */
  method OpenImage(img: FileImage) returns (f: ColumnFile)
    requires ImageOk(img)
    ensures f.Valid() && fresh(f) && fresh(f.page) && f.kind == img.kind && f.Rows() == PageValues(img.pages, |img.pages|)
  {
    var n := |img.pages| - 1;
    DiskHolds(img.pages, n);
    OpenOk(img);
    hide Contents, PageOf, CapacityOf, FullPages, Stored, OnDisk;
    f := new ColumnFile.Open(img.kind, OnDisk(img.pages));
  }

  // ---- where a row is ----

  lemma {:induction false} FullStart(f: FileImage, n: nat)
    requires ImageOk(f) && n < |f.pages|
    ensures PageStart(f.pages, n) == Times(n, CapacityOf(f.kind))
  {
    hide CapacityOf, PageOk;
    if n > 0 {
      FullStart(f, n - 1);
      NextMultiple(n, CapacityOf(f.kind));
    } else {
      NoMultiple(CapacityOf(f.kind));
    }
  }

  lemma {:induction false} NoMultiple(c: nat)
    ensures Times(0, c) == 0
  {
  }

  lemma {:induction false} ValuesPrefix(pages: Pages, n: nat, m: nat)
    requires n <= m <= |pages|
    ensures PageStart(pages, n) <= PageStart(pages, m)
    ensures PageValues(pages, n) == PageValues(pages, m)[..PageStart(pages, n)]
  {
    hide Contents;
    if n < m {
      ValuesPrefix(pages, n, m - 1);
    }
  }

  /** The rows of a page lie together, from its start on. */
  lemma {:induction false} PageRun(pages: Pages, num: nat, slot: nat, take: nat)
    requires num < |pages| && slot + take <= pages[num].count
    ensures PageStart(pages, num) + slot + take <= PageStart(pages, |pages|)
    ensures PageValues(pages, |pages|)[PageStart(pages, num) + slot..PageStart(pages, num) + slot + take]
         == Contents(pages[num])[slot..slot + take]
  {
    var all, b, c := PageValues(pages, |pages|), PageValues(pages, num), Contents(pages[num]);
    ValuesPrefix(pages, num + 1, |pages|);
    assert PageValues(pages, num + 1) == b + c;
    hide PageValues, Contents;
    Slice(all, b, c, slot, take);
  }

  lemma {:induction false} Slice(a: seq<Value>, b: seq<Value>, c: seq<Value>, slot: nat, take: nat)
    requires |b| + |c| <= |a| && a[..|b| + |c|] == b + c && slot + take <= |c|
    ensures a[|b| + slot..|b| + slot + take] == c[slot..slot + take]
  {
    var x := |b| + slot;
    var l, r := a[x..x + take], c[slot..slot + take];
    forall i | 0 <= i < take
      ensures l[i] == r[i]
    {
      assert a[x + i] == (b + c)[x + i];
    }
  }

  /** Row `cursor` is on page `cursor / capacity`, in slot `cursor % capacity`. */
  lemma {:induction false} CursorPage(f: FileImage, cursor: nat)
    requires ImageOk(f) && cursor < PageStart(f.pages, |f.pages|)
    ensures var num, slot := Quotient(cursor, CapacityOf(f.kind)), Remainder(cursor, CapacityOf(f.kind));
            && num < |f.pages| && slot < f.pages[num].count && cursor == PageStart(f.pages, num) + slot
  {
    var cap, n := CapacityOf(f.kind), |f.pages| - 1;
    var num, slot := Quotient(cursor, cap), Remainder(cursor, cap);
    DivMod(cursor, cap);
    FullStart(f, n);
    assert PageStart(f.pages, |f.pages|) == PageStart(f.pages, n) + f.pages[n].count;
    hide Times, Quotient, Remainder, CapacityOf, PageOk, PageStart;
    assert PageOf(f.kind, f.pages[n]) && f.pages[n].count <= cap by {
      CountBound(f, n);
    }
    if num > n {
      MultipleOrder(n, num, cap);
    }
    assert num <= n;
    FullStart(f, num);
    if num < n {
      assert FullPage(f.kind, f.pages[num]);
    }
  }

  lemma {:induction false} CountBound(f: FileImage, i: nat)
    requires ImageOk(f) && i < |f.pages|
    ensures PageOf(f.kind, f.pages[i]) && f.pages[i].count <= CapacityOf(f.kind)
  {
  }

  /** Reads consecutive rows of a column page by page. */
  method ReadRun(f: FileImage, start: nat, count: nat, ghost vs: seq<Value>) returns (out: seq<Value>)
    requires ImageOk(f) && vs == PageValues(f.pages, |f.pages|) && start + count <= |vs|
    ensures out == vs[start..start + count]
  {
    hide *;
    out := [];
    var cursor, remaining := start, count;
    while remaining > 0
      invariant cursor + remaining == start + count <= |vs| && start <= cursor && 0 <= remaining
      invariant out == vs[start..cursor]
      decreases remaining
    {
      CursorPage(f, cursor);
      var cap := CapacityOf(f.kind);
      assert cap > 0 by {
        PositiveCapacity(f);
      }
      var num, slot := Quotient(cursor, cap), Remainder(cursor, cap);
      var p := f.pages[num];
      var avail := p.count - slot;
      var take := if avail < remaining then avail else remaining;
      PageRun(f.pages, num, slot, take);
      SliceJoin(vs, start, cursor, cursor + take);
      out := out + Contents(p)[slot..slot + take];
      cursor := cursor + take;
      remaining := remaining - take;
    }
  }

  lemma {:induction false} PositiveCapacity(f: FileImage)
    requires ImageOk(f)
    ensures CapacityOf(f.kind) > 0
  {
  }

  lemma {:induction false} SliceJoin(s: seq<Value>, a: nat, b: nat, c: nat)
    requires a <= b <= c <= |s|
    ensures s[a..b] + s[b..c] == s[a..c]
  {
  }
}

/** src/db/RotatingLog.hpp: a log written to one file after another, and read back. */
module RotatingLogs {
  import opened Options
  import opened Names
  import opened Dates

  /** The directory: what each file holds, as whole items. */
  class Disk<T> {
    var files: map<string, seq<T>>

    constructor ()
      ensures files == map[]
    {
      files := map[];
    }
  }

  predicate HasPrefix(path: string, basepath: string) {
    basepath <= path
  }

  function Flatten<T>(ss: seq<seq<T>>): seq<T> {
    if ss == [] then [] else Flatten(ss[..|ss| - 1]) + ss[|ss| - 1]
  }

  /** The contents of files, one after the other. */
  function Contents<T>(files: map<string, seq<T>>, paths: seq<string>): seq<T>
    requires forall p :: p in paths ==> p in files
  {
    Flatten(seq(|paths|, i requires 0 <= i < |paths| => files[paths[i]]))
  }

  lemma ContentsLast<T>(files: map<string, seq<T>>, paths: seq<string>, p: string)
    requires (forall q :: q in paths ==> q in files) && p in files
    ensures Contents(files, paths + [p]) == Contents(files, paths) + files[p]
  {
    var all := paths + [p];
    var ss := seq(|all|, i requires 0 <= i < |all| => files[all[i]]);
    assert ss[..|ss| - 1] == seq(|paths|, i requires 0 <= i < |paths| => files[paths[i]]);
  }

  lemma ContentsSame<T>(files: map<string, seq<T>>, files': map<string, seq<T>>, paths: seq<string>)
    requires forall q :: q in paths ==> q in files && q in files' && files[q] == files'[q]
    ensures Contents(files, paths) == Contents(files', paths)
  {
    assert seq(|paths|, i requires 0 <= i < |paths| => files[paths[i]])
        == seq(|paths|, i requires 0 <= i < |paths| => files'[paths[i]]);
  }

  lemma {:induction false} FlattenFirst<T>(s: seq<T>, ss: seq<seq<T>>)
    ensures Flatten([s] + ss) == s + Flatten(ss)
  {
    var all := [s] + ss;
    if ss == [] {
      assert all[..0] == [];
    } else {
      FlattenFirst(s, ss[..|ss| - 1]);
      assert all[..|all| - 1] == [s] + ss[..|ss| - 1];
    }
  }

  lemma ContentsFirst<T>(files: map<string, seq<T>>, paths: seq<string>)
    requires paths != [] && forall q :: q in paths ==> q in files
    ensures Contents(files, paths) == files[paths[0]] + Contents(files, paths[1..])
  {
    var rest := paths[1..];
    var ss := seq(|rest|, i requires 0 <= i < |rest| => files[rest[i]]);
    assert seq(|paths|, i requires 0 <= i < |paths| => files[paths[i]]) == [files[paths[0]]] + ss;
    FlattenFirst(files[paths[0]], ss);
  }

  // ----- what is written -----

  /** `calendar` is `localtime_r`: the date that the clock of the place shows at a time. */
  datatype Settings = Settings(basepath: string, calendar: int -> Date, interval: int, checkThreshold: nat,
                               itemSize: nat)

  function PathOf(s: Settings, timestamp: int): string {
    s.basepath + "." + Suffix(s.calendar(timestamp))
  }

  lemma PathHasPrefix(s: Settings, timestamp: int)
    ensures HasPrefix(PathOf(s, timestamp), s.basepath)
  {
  }

  /** What is written to a path between two rotations. */
  datatype Piece<T> = Piece(path: string, items: seq<T>)

  /** The state of a writer: everything written up to now, the last piece being open. */
  datatype Log<T> = Log(pieces: seq<Piece<T>>, bytesWritten: nat, lastTimestamp: int)

  function Started<T>(s: Settings, l: Log<T>, now: int): Log<T> {
    l.(pieces := l.pieces + [Piece(PathOf(s, now), [])], lastTimestamp := now)
  }

  /** A new writer, in a directory where something may have been written before. */
  function Begun<T>(s: Settings, earlier: seq<Piece<T>>, now: int): Log<T> {
    Started(s, Log(earlier, 0, now), now)
  }

  function Extended<T>(pieces: seq<Piece<T>>, item: T): seq<Piece<T>>
    requires pieces != []
  {
    var last := pieces[|pieces| - 1];
    pieces[..|pieces| - 1] + [Piece(last.path, last.items + [item])]
  }

  /** One `append`, with the two clock readings it may make. */
  function Written<T>(s: Settings, l: Log<T>, item: T, now: int, later: int): (r: Log<T>)
    requires l.pieces != []
    ensures r.pieces != []
  {
    var l' := Log(Extended(l.pieces, item), l.bytesWritten + s.itemSize, l.lastTimestamp);
    if l'.bytesWritten > s.checkThreshold && now - l.lastTimestamp >= s.interval
    then Started(s, l', later).(bytesWritten := 0)
    else l'
  }

  /** Appending items one by one; the clock was read once to begin with, and twice for each item. */
  function WrittenAll<T>(s: Settings, l: Log<T>, items: seq<T>, clock: seq<int>): (r: Log<T>)
    requires l.pieces != [] && |clock| > 2 * |items|
    ensures r.pieces != []
    decreases |items|
  {
    if items == [] then l
    else
      var n := |items|;
      Written(s, WrittenAll(s, l, items[..n - 1], clock), items[n - 1], clock[2 * n - 1], clock[2 * n])
  }

  function AllItems<T>(pieces: seq<Piece<T>>): seq<T> {
    if pieces == [] then [] else AllItems(pieces[..|pieces| - 1]) + pieces[|pieces| - 1].items
  }

  // ----- what is read back -----

  /** The files opened, each once, in the order of their names. */
  function Listing<T>(pieces: seq<Piece<T>>): seq<string> {
    if pieces == [] then [] else InsertName(Listing(pieces[..|pieces| - 1]), pieces[|pieces| - 1].path)
  }

  /** What a file holds: all pieces written to it, as it is opened for appending. */
  function FileOf<T>(pieces: seq<Piece<T>>, path: string): seq<T> {
    if pieces == [] then []
    else
      var last := pieces[|pieces| - 1];
      FileOf(pieces[..|pieces| - 1], path) + if last.path == path then last.items else []
  }

  function FilesOf<T>(pieces: seq<Piece<T>>): map<string, seq<T>> {
    map p | p in Listing(pieces) :: FileOf(pieces, p)
  }

  function ReadBack<T>(pieces: seq<Piece<T>>): seq<T> {
    Contents(FilesOf(pieces), Listing(pieces))
  }

  /** The files under the prefix are those that were written. */
  ghost predicate Holds<T>(files: map<string, seq<T>>, basepath: string, pieces: seq<Piece<T>>) {
    && (forall p :: p in files && HasPrefix(p, basepath) <==> p in Listing(pieces))
    && (forall p :: p in Listing(pieces) ==> files[p] == FileOf(pieces, p))
  }

  lemma {:induction false} ListingIs<T>(pieces: seq<Piece<T>>)
    ensures Ascending(Listing(pieces))
    ensures forall p :: p in Listing(pieces) <==> exists i :: 0 <= i < |pieces| && pieces[i].path == p
  {
    if pieces != [] {
      var front, last := pieces[..|pieces| - 1], pieces[|pieces| - 1];
      ListingIs(front);
      InsertNameKeeps(Listing(front), last.path);
      assert forall i :: 0 <= i < |pieces| ==> pieces[i] == if i < |front| then front[i] else last;
    }
  }

  lemma {:induction false} NotWritten<T>(pieces: seq<Piece<T>>, path: string)
    requires forall i :: 0 <= i < |pieces| ==> pieces[i].path != path
    ensures FileOf(pieces, path) == []
  {
    if pieces != [] {
      NotWritten(pieces[..|pieces| - 1], path);
    }
  }

  lemma NewPieceHolds<T>(files: map<string, seq<T>>, basepath: string, pieces: seq<Piece<T>>, path: string)
    requires Holds(files, basepath, pieces) && HasPrefix(path, basepath)
    ensures Holds(if path in files then files else files[path := []], basepath, pieces + [Piece(path, [])])
  {
    var pieces' := pieces + [Piece(path, [])];
    assert pieces'[..|pieces|] == pieces;
    ListingIs(pieces);
    InsertNameKeeps(Listing(pieces), path);
    if path !in files {
      NotWritten(pieces, path);
    }
    assert forall p :: FileOf(pieces', p) == FileOf(pieces, p) + [];
    assert forall p :: FileOf(pieces, p) + [] == FileOf(pieces, p);
  }

  lemma NewItemHolds<T>(files: map<string, seq<T>>, basepath: string, pieces: seq<Piece<T>>, item: T)
    requires pieces != [] && Holds(files, basepath, pieces)
    ensures var path := pieces[|pieces| - 1].path;
            && path in files && HasPrefix(path, basepath)
            && Holds(files[path := files[path] + [item]], basepath, Extended(pieces, item))
  {
    var front, last, pieces' := pieces[..|pieces| - 1], pieces[|pieces| - 1], Extended(pieces, item);
    assert pieces'[..|pieces| - 1] == front;
    ListingIs(front);
    InsertNameKeeps(Listing(front), last.path);
    assert FileOf(pieces', last.path) == FileOf(front, last.path) + (last.items + [item]);
    assert FileOf(pieces', last.path) == FileOf(pieces, last.path) + [item];
    assert forall p :: p != last.path ==> FileOf(pieces', p) == FileOf(pieces, p);
  }

  /** A reader that lists the files under the prefix in order reads back what was written to them. */
  lemma ReaderFindsAll<T>(files: map<string, seq<T>>, basepath: string, pieces: seq<Piece<T>>, paths: seq<string>)
    requires Holds(files, basepath, pieces)
    requires Ascending(paths) && forall p :: p in paths <==> p in files && HasPrefix(p, basepath)
    ensures Contents(files, paths) == ReadBack(pieces)
  {
    ListingIs(pieces);
    AscendingUnique(paths, Listing(pieces));
    ContentsSame(files, FilesOf(pieces), paths);
  }

  // ----- when that is what was appended -----

  /** No name sorts before one that was used earlier. */
  ghost predicate Forward<T>(pieces: seq<Piece<T>>) {
    forall i, j :: 0 <= i < j < |pieces| ==> !Less(pieces[j].path, pieces[i].path)
  }

  lemma SameFileMore<T>(files: map<string, seq<T>>, files': map<string, seq<T>>, before: seq<string>, path: string,
                        more: seq<T>)
    requires forall q :: q in before + [path] ==> q in files && q in files'
    requires (forall q :: q in before ==> files[q] == files'[q]) && files[path] == files'[path] + more
    ensures Contents(files, before + [path]) == Contents(files', before + [path]) + more
  {
    hide Contents;
    assert path in before + [path];
    ContentsSame(files, files', before);
    ContentsLast(files, before, path);
    ContentsLast(files', before, path);
  }

  lemma NewFileMore<T>(files: map<string, seq<T>>, files': map<string, seq<T>>, before: seq<string>, path: string)
    requires (forall q :: q in before ==> q in files && q in files' && files[q] == files'[q]) && path in files
    ensures Contents(files, before + [path]) == Contents(files', before) + files[path]
  {
    ContentsSame(files, files', before);
    ContentsLast(files, before, path);
  }

  lemma AppendsName(s: seq<string>, n: string)
    requires Ascending(s) && forall p :: p in s ==> !Less(n, p)
    ensures InsertName(s, n) == if n in s then s else s + [n]
    ensures InsertName(s, n) != [] && InsertName(s, n)[|InsertName(s, n)| - 1] == n
  {
    if s != [] {
      assert s[|s| - 1] in s;
      LessTotal(s[|s| - 1], n);
      LessIrreflexive(n);
      if n in s {
        AscendingLast(s, n);
      }
    }
  }

  /** The last piece belongs to the last file of the listing. */
  lemma LastFile<T>(pieces: seq<Piece<T>>)
    requires Forward(pieces) && pieces != []
    ensures var front, last, all := pieces[..|pieces| - 1], pieces[|pieces| - 1], Listing(pieces);
            && all != [] && all[|all| - 1] == last.path
            && Listing(front) == (if last.path in Listing(front) then all else all[..|all| - 1])
            && (forall p :: p in all[..|all| - 1] ==> p in Listing(front) && FileOf(pieces, p) == FileOf(front, p))
            && FileOf(pieces, last.path) == FileOf(front, last.path) + last.items
            && (last.path !in Listing(front) ==> FileOf(front, last.path) == [])
  {
    var front, last := pieces[..|pieces| - 1], pieces[|pieces| - 1];
    var before, all := Listing(front), Listing(pieces);
    ListingIs(front);
    ListingIs(pieces);
    forall p | p in before ensures !Less(last.path, p) {
      var i :| 0 <= i < |front| && front[i].path == p;
      assert pieces[i] == front[i];
    }
    if last.path !in before {
      NotWritten(front, last.path);
    }
    AppendsName(before, last.path);
    LessIrreflexive(last.path);
    assert forall p :: FileOf(front, p) + [] == FileOf(front, p);
    forall p | p in all[..|all| - 1] ensures p != last.path && p in before {
      AscendingFront(all, p);
    }
  }

  lemma ReadBackMore<T>(pieces: seq<Piece<T>>)
    requires Forward(pieces) && pieces != []
    ensures ReadBack(pieces) == ReadBack(pieces[..|pieces| - 1]) + pieces[|pieces| - 1].items
  {
    hide FileOf, Listing, Forward, Contents;
    var front, last, all := pieces[..|pieces| - 1], pieces[|pieces| - 1], Listing(pieces);
    LastFile(pieces);
    var before := all[..|all| - 1];
    assert all == before + [last.path];
    if last.path in Listing(front) {
      SameFileMore(FilesOf(pieces), FilesOf(front), before, last.path, last.items);
    } else {
      assert [] + last.items == last.items;
      NewFileMore(FilesOf(pieces), FilesOf(front), before, last.path);
    }
  }

  lemma {:induction false} ForwardIsReadBack<T>(pieces: seq<Piece<T>>)
    requires Forward(pieces)
    ensures ReadBack(pieces) == AllItems(pieces)
  {
    if pieces != [] {
      ForwardIsReadBack(pieces[..|pieces| - 1]);
      ReadBackMore(pieces);
    }
  }

  /** Clock readings one after the other, in a range. */
  ghost predicate OnClock(clock: seq<int>, lo: int, hi: int) {
    && (forall i, j :: 0 <= i < j < |clock| ==> clock[i] <= clock[j])
    && (forall i :: 0 <= i < |clock| ==> lo <= clock[i] <= hi)
  }

  /** An interval or more later, no name sorts before. */
  ghost predicate NamesForward(s: Settings, lo: int, hi: int) {
    forall t, u :: lo <= t <= u <= hi && u - t >= s.interval ==> !Less(PathOf(s, u), PathOf(s, t))
  }

  lemma NotLessTransitive(a: string, b: string, c: string)
    requires !Less(b, a) && !Less(c, b)
    ensures !Less(c, a)
  {
    LessTotal(a, b);
    if Less(c, a) && Less(a, b) {
      LessTransitive(c, a, b);
    }
  }

  lemma ForwardMore<T>(pieces: seq<Piece<T>>, path: string)
    requires Forward(pieces) && (pieces != [] ==> !Less(path, pieces[|pieces| - 1].path))
    ensures Forward(pieces + [Piece(path, [])])
  {
    hide Less;
    forall i | 0 <= i < |pieces| ensures !Less(path, pieces[i].path) {
      if i < |pieces| - 1 {
        NotLessTransitive(pieces[i].path, pieces[|pieces| - 1].path, path);
      }
    }
  }

  lemma NoItemsYet<T>(pieces: seq<Piece<T>>, path: string)
    ensures AllItems(pieces + [Piece(path, [])]) == AllItems(pieces)
  {
    assert (pieces + [Piece(path, [])])[..|pieces|] == pieces && AllItems(pieces) + [] == AllItems(pieces);
  }

  lemma ForwardExtended<T>(pieces: seq<Piece<T>>, item: T)
    requires Forward(pieces) && pieces != []
    ensures Forward(Extended(pieces, item)) && AllItems(Extended(pieces, item)) == AllItems(pieces) + [item]
  {
    var front, last := pieces[..|pieces| - 1], pieces[|pieces| - 1];
    assert Extended(pieces, item)[..|pieces| - 1] == front;
    assert AllItems(front) + (last.items + [item]) == AllItems(front) + last.items + [item];
    forall i, j | 0 <= i < j < |pieces|
      ensures !Less(Extended(pieces, item)[j].path, Extended(pieces, item)[i].path)
    {
      assert !Less(pieces[j].path, pieces[i].path);
    }
  }

  /** The open piece belongs to the last time stamp, and the names went forward up to now. */
  ghost predicate UpToDate<T>(s: Settings, l: Log<T>, lo: int, now: int) {
    && l.pieces != [] && l.pieces[|l.pieces| - 1].path == PathOf(s, l.lastTimestamp)
    && lo <= l.lastTimestamp <= now && Forward(l.pieces)
  }

  lemma LaterName(s: Settings, t: int, u: int, lo: int, hi: int)
    requires NamesForward(s, lo, hi) && lo <= t <= u <= hi
    ensures u - t >= s.interval ==> !Less(PathOf(s, u), PathOf(s, t))
  {
    hide Less, PathOf;
  }

  lemma WrittenKeeps<T>(s: Settings, l: Log<T>, item: T, now: int, later: int, lo: int, hi: int)
    requires NamesForward(s, lo, hi) && UpToDate(s, l, lo, now) && now <= later <= hi
    ensures UpToDate(s, Written(s, l, item, now, later), lo, later)
    ensures AllItems(Written(s, l, item, now, later).pieces) == AllItems(l.pieces) + [item]
  {
    hide Forward, PathOf, AllItems, Less, Suffix, NamesForward;
    ForwardExtended(l.pieces, item);
    LaterName(s, l.lastTimestamp, later, lo, hi);
    if now - l.lastTimestamp >= s.interval {
      assert later - l.lastTimestamp >= s.interval;
      ForwardMore(Extended(l.pieces, item), PathOf(s, later));
      NoItemsYet(Extended(l.pieces, item), PathOf(s, later));
    }
  }

  lemma {:induction false} WrittenAllKeeps<T>(s: Settings, l: Log<T>, items: seq<T>, clock: seq<int>, lo: int, hi: int)
    requires |clock| > 2 * |items| && OnClock(clock, lo, hi) && NamesForward(s, lo, hi)
    requires UpToDate(s, l, lo, clock[0])
    ensures var r := WrittenAll(s, l, items, clock);
            UpToDate(s, r, lo, clock[2 * |items|]) && AllItems(r.pieces) == AllItems(l.pieces) + items
    decreases |items|
  {
    hide NamesForward, Written, AllItems, Forward, PathOf;
    if items == [] {
      assert AllItems(l.pieces) + items == AllItems(l.pieces);
    } else {
      var n := |items|;
      WrittenAllKeeps(s, l, items[..n - 1], clock, lo, hi);
      var before := WrittenAll(s, l, items[..n - 1], clock);
      assert UpToDate(s, before, lo, clock[2 * n - 1]);
      WrittenKeeps(s, before, items[n - 1], clock[2 * n - 1], clock[2 * n], lo, hi);
      assert AllItems(l.pieces) + items[..n - 1] + [items[n - 1]] == AllItems(l.pieces) + items;
    }
  }

  // ----- when a new file is begun -----

  /** The bytes counted are those of the open piece. */
  ghost predicate Counted<T>(s: Settings, l: Log<T>) {
    l.pieces != [] && l.bytesWritten == s.itemSize * |l.pieces[|l.pieces| - 1].items|
  }

  /** An item goes to the open piece. A new one is begun exactly when the open one then holds more bytes than the
      threshold and was begun an interval or more ago; its name is the base path, a point and the date. */
  lemma RotatesExactly<T>(s: Settings, l: Log<T>, item: T, now: int, later: int)
    requires Counted(s, l)
    ensures var r := Written(s, l, item, now, later);
            var front, last := l.pieces[..|l.pieces| - 1], l.pieces[|l.pieces| - 1];
            var longer := front + [Piece(last.path, last.items + [item])];
            && Counted(s, r)
            && if s.itemSize * (|last.items| + 1) > s.checkThreshold && now - l.lastTimestamp >= s.interval
               then r.pieces == longer + [Piece(s.basepath + "." + Suffix(s.calendar(later)), [])] && r.lastTimestamp == later
               else r.pieces == longer && r.lastTimestamp == l.lastTimestamp
  {
    hide Suffix;
    var n := |l.pieces[|l.pieces| - 1].items|;
    assert s.itemSize * (n + 1) == s.itemSize * n + s.itemSize;
  }

  ghost predicate Full<T>(s: Settings, pieces: seq<Piece<T>>, from: nat) {
    forall i :: from <= i < |pieces| - 1 ==> s.itemSize * |pieces[i].items| > s.checkThreshold
  }

  /** Every piece that a run has closed holds more bytes than the threshold. */
  lemma {:induction false} ClosedPiecesFull<T>(s: Settings, earlier: seq<Piece<T>>, items: seq<T>, clock: seq<int>)
    requires |clock| > 2 * |items|
    ensures var r := WrittenAll(s, Begun(s, earlier, clock[0]), items, clock);
            Counted(s, r) && |earlier| < |r.pieces| && r.pieces[..|earlier|] == earlier && Full(s, r.pieces, |earlier|)
    decreases |items|
  {
    hide Suffix, Written;
    if items != [] {
      var n := |items|;
      ClosedPiecesFull(s, earlier, items[..n - 1], clock);
      var l := WrittenAll(s, Begun(s, earlier, clock[0]), items[..n - 1], clock);
      RotatesExactly(s, l, items[n - 1], clock[2 * n - 1], clock[2 * n]);
    }
  }

  // ----- whole runs -----

  /** If the names go forward, everything is read back in order, after what was there before. */
  lemma ReadsBack<T>(s: Settings, earlier: seq<Piece<T>>, items: seq<T>, clock: seq<int>, lo: int, hi: int)
    requires |clock| > 2 * |items| && OnClock(clock, lo, hi) && NamesForward(s, lo, hi)
    requires Forward(Begun(s, earlier, clock[0]).pieces)
    ensures ReadBack(WrittenAll(s, Begun(s, earlier, clock[0]), items, clock).pieces) == AllItems(earlier) + items
  {
    hide NamesForward, Forward, PathOf, WrittenAll, ReadBack, AllItems;
    var l := Begun(s, earlier, clock[0]);
    NoItemsYet(earlier, PathOf(s, clock[0]));
    WrittenAllKeeps(s, l, items, clock, lo, hi);
    ForwardIsReadBack(WrittenAll(s, l, items, clock).pieces);
  }

  lemma OnePieceMore<T>(pieces: seq<Piece<T>>, last: Piece<T>)
    ensures Listing(pieces + [last]) == InsertName(Listing(pieces), last.path)
    ensures forall p :: FileOf(pieces + [last], p) == FileOf(pieces, p) + if last.path == p then last.items else []
    ensures forall item :: Extended(pieces + [last], item) == pieces + [Piece(last.path, last.items + [item])]
  {
    assert (pieces + [last])[..|pieces|] == pieces;
  }

  lemma InsertBefore(s: seq<string>, x: string, n: string)
    requires Less(n, x)
    ensures InsertName(s + [x], n) == InsertName(s, n) + [x]
  {
    LessIrreflexive(n);
    if Less(x, n) {
      LessTransitive(x, n, x);
      LessIrreflexive(x);
    }
    assert (s + [x])[..|s|] == s;
  }

  lemma TwoNames(p: string, q: string)
    requires Less(q, p)
    ensures InsertName([], p) == [p] && InsertName([p], q) == [q, p] && InsertName([q, p], q) == [q, p]
  {
    LessIrreflexive(q);
    hide Less, InsertName;
    var none: seq<string> := [];
    AppendsName(none, p);
    AppendsName(none, q);
    AppendsName([q], q);
    InsertBefore(none, p, q);
    InsertBefore([q], p, q);
    assert none + [p] == [p] && none + [q] == [q] && [q] + [p] == [q, p];
  }

  lemma ReadTwo<T>(pieces: seq<Piece<T>>, q: string, p: string)
    requires Listing(pieces) == [q, p]
    ensures ReadBack(pieces) == FileOf(pieces, q) + FileOf(pieces, p)
  {
    var none: seq<string> := [];
    assert none + [q] == [q] && [q] + [p] == [q, p] && Contents(FilesOf(pieces), none) == [];
    ContentsLast(FilesOf(pieces), none, q);
    ContentsLast(FilesOf(pieces), [q], p);
    assert [] + FileOf(pieces, q) == FileOf(pieces, q);
  }

  lemma NoFiles<T>(pieces: seq<Piece<T>>)
    requires pieces == []
    ensures Listing(pieces) == [] && forall p :: FileOf(pieces, p) == []
  {
  }

  lemma OnePiece<T>(p: string, a: T)
    ensures Listing([Piece(p, [a])]) == [p]
    ensures forall x :: FileOf([Piece(p, [a])], x) == if x == p then [a] else []
  {
    assert [Piece(p, [a])][..0] == [];
    NoFiles<T>([]);
    assert [] + [p] == [p];
  }

  lemma TwoPieces<T>(p: string, q: string, a: T, b: T)
    requires Less(q, p)
    ensures var two := [Piece(p, [a]), Piece(q, [b])];
            Listing(two) == [q, p] && FileOf(two, q) == [b] && FileOf(two, p) == [a]
  {
    LessIrreflexive(p);
    TwoNames(p, q);
    hide Less, InsertName, Listing, FileOf;
    var one := [Piece(p, [a])];
    OnePiece(p, a);
    OnePieceMore(one, Piece(q, [b]));
    assert one + [Piece(q, [b])] == [Piece(p, [a]), Piece(q, [b])];
  }

  lemma ReadTwoPieces<T>(p: string, q: string, a: T, b: T)
    requires Less(q, p)
    ensures ReadBack([Piece(p, [a]), Piece(q, [b])]) == [b, a]
    ensures ReadBack([Piece(p, [a]), Piece(q, [b]), Piece(q, [])]) == [b, a]
  {
    TwoPieces(p, q, a, b);
    TwoNames(p, q);
    hide Less, InsertName, Listing, FileOf, ReadBack;
    var two := [Piece(p, [a]), Piece(q, [b])];
    OnePieceMore(two, Piece(q, []));
    assert two + [Piece(q, [])] == [Piece(p, [a]), Piece(q, [b]), Piece(q, [])];
    assert [b] + [a] == [b, a] && [b] + [] == [b] && [a] + [] == [a];
    ReadTwo(two, q, p);
    ReadTwo(two + [Piece(q, [])], q, p);
  }

  /** If one of them does not, two items are enough to go wrong. */
  lemma StepsBack<T>(s: Settings, a: T, b: T, t: int, u: int)
    requires s.checkThreshold < s.itemSize && u - t >= s.interval && Less(PathOf(s, u), PathOf(s, t))
    ensures ReadBack(WrittenAll(s, Begun(s, [], t), [a, b], [t, u, u, u, u]).pieces) == [b, a]
  {
    hide Less, ReadBack, Listing, FileOf, PathOf, Extended;
    var p, q, clock := PathOf(s, t), PathOf(s, u), [t, u, u, u, u];
    var none: seq<Piece<T>>, nothing: seq<T>, l0: Log<T> := [], [], Begun(s, [], t);
    assert nothing + [a] == [a] && nothing + [b] == [b];
    OnePieceMore(none, Piece(p, []));
    OnePieceMore([Piece(p, [a])], Piece(q, []));
    assert l0.pieces == none + [Piece(p, [])] && none + [Piece(p, nothing + [a])] == [Piece(p, [a])];
    assert [a, b][..1] == [a] && [a][..0] == [];
    var l1 := Written(s, l0, a, u, u);
    assert WrittenAll(s, l0, [a], clock) == l1;
    assert l1.pieces == [Piece(p, [a])] + [Piece(q, [])];
    assert WrittenAll(s, l0, [a, b], clock) == Written(s, l1, b, u, u);
    assert [Piece(p, [a])] + [Piece(q, nothing + [b])] == [Piece(p, [a]), Piece(q, [b])];
    assert [Piece(p, [a]), Piece(q, [b])] + [Piece(q, [])] == [Piece(p, [a]), Piece(q, [b]), Piece(q, [])];
    ReadTwoPieces(p, q, a, b);
  }

  /** Whatever is appended, at whatever times in a range, is read back in order. */
  ghost predicate AlwaysReadsBack<T(!new)>(basepath: string, calendar: int -> Date, interval: int, lo: int, hi: int) {
    forall checkThreshold, itemSize, items: seq<T>, clock ::
      OnClock(clock, lo, hi) && |clock| == 1 + 2 * |items| ==>
        var s := Settings(basepath, calendar, interval, checkThreshold, itemSize);
        ReadBack(WrittenAll(s, Begun(s, [], clock[0]), items, clock).pieces) == items
  }

  /** That is so exactly when, an interval or more later, no name sorts before. */
  lemma ReadsBackExactly<T(!new)>(basepath: string, calendar: int -> Date, interval: int, lo: int, hi: int, a: T, b: T)
    requires a != b
    ensures AlwaysReadsBack<T>(basepath, calendar, interval, lo, hi) <==>
              NamesForward(Settings(basepath, calendar, interval, 0, 1), lo, hi)
  {
    hide AlwaysReadsBack, Less, Suffix;
    var least := Settings(basepath, calendar, interval, 0, 1);
    if NamesForward(least, lo, hi) {
      ForwardSuffices<T>(basepath, calendar, interval, lo, hi);
    } else {
      var t, u :| lo <= t <= u <= hi && u - t >= interval && Less(PathOf(least, u), PathOf(least, t));
      BackIsWrong(basepath, calendar, interval, lo, hi, t, u, a, b);
    }
  }

  lemma ForwardSuffices<T(!new)>(basepath: string, calendar: int -> Date, interval: int, lo: int, hi: int)
    requires NamesForward(Settings(basepath, calendar, interval, 0, 1), lo, hi)
    ensures AlwaysReadsBack<T>(basepath, calendar, interval, lo, hi)
  {
    hide Less, Suffix, NamesForward, WrittenAll, ReadBack, OnClock;
    forall checkThreshold, itemSize, items: seq<T>, clock | OnClock(clock, lo, hi) && |clock| == 1 + 2 * |items|
      ensures var s := Settings(basepath, calendar, interval, checkThreshold, itemSize);
              ReadBack(WrittenAll(s, Begun(s, [], clock[0]), items, clock).pieces) == items
    {
      var s := Settings(basepath, calendar, interval, checkThreshold, itemSize);
      SameNames(s, Settings(basepath, calendar, interval, 0, 1), lo, hi);
      ReadsBack(s, [], items, clock, lo, hi);
      assert [] + items == items;
    }
  }

  lemma SameNames(s: Settings, s': Settings, lo: int, hi: int)
    requires s.basepath == s'.basepath && s.calendar == s'.calendar && s.interval == s'.interval
    requires NamesForward(s', lo, hi)
    ensures NamesForward(s, lo, hi)
  {
    hide Less, Suffix;
    forall t, u | lo <= t <= u <= hi && u - t >= s.interval ensures !Less(PathOf(s, u), PathOf(s, t)) {
      assert PathOf(s, t) == PathOf(s', t) && PathOf(s, u) == PathOf(s', u);
    }
  }

  lemma BackIsWrong<T(!new)>(basepath: string, calendar: int -> Date, interval: int, lo: int, hi: int, t: int, u: int,
                             a: T, b: T)
    requires a != b && lo <= t <= u <= hi && u - t >= interval
    requires var s := Settings(basepath, calendar, interval, 0, 1); Less(PathOf(s, u), PathOf(s, t))
    ensures !AlwaysReadsBack<T>(basepath, calendar, interval, lo, hi)
  {
    hide Less, PathOf, WrittenAll, ReadBack;
    var s := Settings(basepath, calendar, interval, 0, 1);
    StepsBack(s, a, b, t, u);
    assert OnClock([t, u, u, u, u], lo, hi);
    assert [b, a][0] != [a, b][0];
  }

  /** No local date, an interval or more later, has a name that sorts before. For years with equally many
      digits: local time never steps back over an interval or more. */
  ghost predicate NeverBack(calendar: int -> Date, interval: int, lo: int, hi: int) {
    forall t, u :: lo <= t <= u <= hi && u - t >= interval ==> !SortsBefore(calendar(u), calendar(t))
  }

  lemma PathOrder(s: Settings, t: int, u: int)
    requires TwoDigits(s.calendar(t)) && TwoDigits(s.calendar(u))
    ensures Less(PathOf(s, u), PathOf(s, t)) <==> SortsBefore(s.calendar(u), s.calendar(t))
  {
    hide Less, Suffix, SortsBefore;
    SuffixSorts(s.calendar(u), s.calendar(t));
    LessParts(s.basepath + ".", s.basepath + ".", Suffix(s.calendar(u)), Suffix(s.calendar(t)));
    LessIrreflexive(s.basepath + ".");
  }

  /** The same in terms of dates, in any years. */
  lemma NamesAndDates(s: Settings, lo: int, hi: int)
    requires forall t :: lo <= t <= hi ==> TwoDigits(s.calendar(t))
    ensures NamesForward(s, lo, hi) <==> NeverBack(s.calendar, s.interval, lo, hi)
  {
    hide Less, TwoDigits, SortsBefore, PathOf;
    forall t, u | lo <= t <= u <= hi
      ensures Less(PathOf(s, u), PathOf(s, t)) <==> SortsBefore(s.calendar(u), s.calendar(t))
    {
      PathOrder(s, t, u);
    }
  }

  // ----- the writer and the reader -----

  class RotatingLogWriter<T> {
    const settings: Settings
    const disk: Disk<T>
    var bytesWritten: nat
    var lastTimestamp: int
    var path: string
    ghost var pieces: seq<Piece<T>>

    ghost function State(): Log<T>
      reads this
    {
      Log(pieces, bytesWritten, lastTimestamp)
    }

    /** The open file is that of the last piece, and the directory holds all pieces. */
    ghost predicate Valid()
      reads this, disk
    {
      && pieces != [] && path == pieces[|pieces| - 1].path
      && Holds(disk.files, settings.basepath, pieces)
    }

    constructor (disk: Disk<T>, settings: Settings, now: int, ghost earlier: seq<Piece<T>>)
      requires Holds(disk.files, settings.basepath, earlier)
      modifies disk
      ensures Valid() && this.disk == disk && this.settings == settings
      ensures State() == Begun(settings, earlier, now)
    {
      hide Holds, PathOf, HasPrefix, Suffix;
      this.disk, this.settings := disk, settings;
      bytesWritten, lastTimestamp, path := 0, now, PathOf(settings, now);
      pieces := earlier + [Piece(PathOf(settings, now), [])];
      new;
      PathHasPrefix(settings, now);
      NewPieceHolds(disk.files, settings.basepath, earlier, path);
      if path !in disk.files {
        disk.files := disk.files[path := []];
      }
    }

    /** `start`: opens the file of the current second for appending. */
    method Start(now: int)
      requires Valid()
      modifies this, disk
      ensures Valid() && State() == Started(settings, old(State()), now)
    {
      hide Holds, PathOf;
      PathHasPrefix(settings, now);
      lastTimestamp := now;
      path := PathOf(settings, now);
      NewPieceHolds(disk.files, settings.basepath, pieces, path);
      pieces := pieces + [Piece(path, [])];
      if path !in disk.files {
        disk.files := disk.files[path := []];
      }
    }

    /** `append`, with the two clock readings it may make. */
    method Append(item: T, now: int, later: int)
      requires Valid()
      modifies this, disk
      ensures Valid() && State() == Written(settings, old(State()), item, now, later)
    {
      hide Holds;
      NewItemHolds(disk.files, settings.basepath, pieces, item);
      disk.files := disk.files[path := disk.files[path] + [item]];
      pieces := Extended(pieces, item);
      bytesWritten := bytesWritten + settings.itemSize;
      if bytesWritten > settings.checkThreshold {
        if now - lastTimestamp >= settings.interval {
          Start(later);
          bytesWritten := 0;
        }
      }
    }
  }

  class RotatingLogReader<T> {
    const disk: Disk<T>
    const paths: seq<string>
    var pathsIt: nat
    var file: Option<string>
    var offset: nat

    ghost predicate Valid()
      reads this, disk
    {
      && pathsIt <= |paths|
      && (forall p :: p in paths ==> p in disk.files)
      && (file.Some? ==> file.value in disk.files && offset <= |disk.files[file.value]|)
    }

    /** What is still to be read. */
    ghost function Rest(): seq<T>
      requires Valid()
      reads this, disk
    {
      (if file.Some? then disk.files[file.value][offset..] else []) + Contents(disk.files, paths[pathsIt..])
    }

    constructor (disk: Disk<T>, basepath: string)
      ensures Valid() && this.disk == disk && Ascending(paths)
      ensures forall p :: p in paths <==> p in disk.files && |basepath| <= |p| && p[..|basepath|] == basepath
      ensures Rest() == Contents(disk.files, paths)
    {
      this.disk := disk;
      var found: seq<string> := [];
      var left := disk.files.Keys;
      while left != {}
        invariant left <= disk.files.Keys && Ascending(found)
        invariant forall p :: p in found <==> p in disk.files && p !in left && HasPrefix(p, basepath)
        decreases |left|
      {
        var p :| p in left;
        if HasPrefix(p, basepath) {
          InsertNameKeeps(found, p);
          found := InsertName(found, p);
        }
        left := left - {p};
      }
      paths, pathsIt, file, offset := found, 0, None, 0;
      new;
      assert paths[0..] == paths;
      assert [] + Contents(disk.files, paths) == Contents(disk.files, paths);
    }

    method CloseFile()
      requires Valid()
      modifies this
      ensures Valid() && file.None? && pathsIt == old(pathsIt)
    {
      file := None;
    }

    /** `rotate_file`: makes sure a file is open, if there is one left. */
    method RotateFile() returns (ok: bool)
      requires Valid()
      modifies this
      ensures Valid() && Rest() == old(Rest())
      ensures ok <==> file.Some?
      ensures !ok ==> Rest() == [] && pathsIt == |paths|
      ensures old(file.Some?) ==> file == old(file) && offset == old(offset) && pathsIt == old(pathsIt)
      ensures old(file.None?) && ok ==> pathsIt == old(pathsIt) + 1
    {
      if file.None? {
        if pathsIt == |paths| {
          assert Rest() == [];
          return false;
        }
        ContentsFirst(disk.files, paths[pathsIt..]);
        assert paths[pathsIt..][1..] == paths[pathsIt + 1..];
        file, offset := Some(paths[pathsIt]), 0;
        pathsIt := pathsIt + 1;
        assert disk.files[file.value][0..] == disk.files[file.value];
        assert [] + old(Contents(disk.files, paths[pathsIt..])) == old(Contents(disk.files, paths[pathsIt..]));
      }
      return true;
    }

    /** One read from the open file: an item, or nothing at its end. */
    method ReadItem() returns (item: Option<T>)
      requires Valid() && file.Some?
      modifies this`offset
      ensures Valid()
      ensures item.Some? ==> old(Rest()) != [] && item.value == old(Rest())[0] && Rest() == old(Rest())[1..]
      ensures item.None? ==> Rest() == old(Rest()) == Contents(disk.files, paths[pathsIt..])
    {
      var contents := disk.files[file.value];
      if offset < |contents| {
        item := Some(contents[offset]);
        assert contents[offset..] == [contents[offset]] + contents[offset + 1..];
        offset := offset + 1;
      } else {
        assert contents[offset..] == [];
        item := None;
      }
    }

    /** `next`: the next item of all files, whatever empty files come before it. */
    method Next() returns (item: Option<T>)
      requires Valid()
      modifies this
      ensures Valid()
      ensures if old(Rest()) == [] then item == None && Rest() == []
              else item == Some(old(Rest())[0]) && Rest() == old(Rest())[1..]
    {
      hide Contents;
      var ok := RotateFile();
      if !ok {
        return None;
      }
      while true
        invariant Valid() && file.Some? && Rest() == old(Rest())
        decreases |paths| - pathsIt
      {
        item := ReadItem();
        if item.Some? {
          return;
        }
        CloseFile();
        ok := RotateFile();
        if !ok {
          return None;
        }
      }
    }
  }

  lemma PiecesOfWriter<T>(writer: RotatingLogWriter<T>)
    requires writer.Valid()
    ensures writer.State().pieces != []
  {
  }

  /** Appends the items one by one; the clock is read twice for each. */
  method WriteAll<T>(writer: RotatingLogWriter<T>, items: seq<T>, clock: seq<int>)
    requires writer.Valid() && |clock| > 2 * |items|
    modifies writer, writer.disk
    ensures writer.Valid()
    ensures writer.State() == WrittenAll(writer.settings, old(writer.State()), items, clock)
  {
    hide RotatingLogWriter.Valid, Written;
    ghost var start := writer.State();
    assert start.pieces != [] by { PiecesOfWriter(writer); }
    for i := 0 to |items|
      invariant writer.Valid() && writer.State() == WrittenAll(writer.settings, start, items[..i], clock)
    {
      assert items[..i + 1][..i] == items[..i];
      writer.Append(items[i], clock[2 * i + 1], clock[2 * i + 2]);
    }
    assert items[..|items|] == items;
  }

  /** Reads until nothing is left and then some more. */
  method ReadAll<T>(reader: RotatingLogReader<T>, extra: nat) returns (read: seq<T>, failed: nat)
    requires reader.Valid()
    modifies reader
    ensures reader.Valid() && read == old(reader.Rest()) && failed == 1 + extra
  {
    hide RotatingLogReader.Valid, RotatingLogReader.Rest;
    read, failed := [], 0;
    var item := reader.Next();
    while item.Some?
      invariant reader.Valid()
      invariant if item.Some? then read + [item.value] + reader.Rest() == old(reader.Rest())
                else read == old(reader.Rest()) && reader.Rest() == []
      decreases |reader.Rest()|, if item.Some? then 1 else 0
    {
      read := read + [item.value];
      ghost var rest := reader.Rest();
      item := reader.Next();
      assert rest != [] ==> read + rest == read + [rest[0]] + rest[1..];
    }
    failed := 1;
    for i := 0 to extra
      invariant reader.Valid() && reader.Rest() == [] && failed == 1 + i
    {
      item := reader.Next();
      if item.None? {
        failed := failed + 1;
      }
    }
  }

  lemma OneIsForward<T>(path: string)
    ensures Forward([Piece<T>.Piece(path, [])])
  {
  }

  /** Whatever is appended, at whatever times, is read back: in order across all rotations if the names
      went forward, and after it every further read fails. Other files of the directory do not matter. */
  method RoundTrip<T>(disk: Disk<T>, settings: Settings, items: seq<T>, clock: seq<int>, extra: nat)
    returns (read: seq<T>, failed: nat)
    requires |clock| == 1 + 2 * |items|
    requires forall p :: p in disk.files ==>
               |p| < |settings.basepath| || p[..|settings.basepath|] != settings.basepath
    modifies disk
    ensures read == ReadBack(WrittenAll(settings, Begun(settings, [], clock[0]), items, clock).pieces)
    ensures forall lo, hi :: OnClock(clock, lo, hi) && NamesForward(settings, lo, hi) ==> read == items
    ensures failed == 1 + extra
  {
    var writer := new RotatingLogWriter(disk, settings, clock[0], []);
    WriteAll(writer, items, clock);
    var reader := new RotatingLogReader(disk, settings.basepath);
    hide Contents, Listing, WrittenAll, ReadBack, OnClock, NamesForward;
    ghost var pieces := writer.State().pieces;
    ReaderFindsAll(disk.files, settings.basepath, pieces, reader.paths);
    read, failed := ReadAll(reader, extra);
    forall lo, hi | OnClock(clock, lo, hi) && NamesForward(settings, lo, hi) ensures read == items {
      OneIsForward<T>(PathOf(settings, clock[0]));
      assert [] + [Piece(PathOf(settings, clock[0]), [])] == [Piece<T>.Piece(PathOf(settings, clock[0]), [])];
      ReadsBack(settings, [], items, clock, lo, hi);
      assert [] + items == items;
    }
  }

}

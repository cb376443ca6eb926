/** Day 6: a sliding-window detector that reports when the last N characters of
 *  a stream are pairwise distinct. */
module Day6 {
  import opened Common

  /** The test `detect` runs on its window: every element differs from the
   *  element at every other index. */
  predicate PairwiseDistinct(s: seq<char>)
  {
    forall i, j | 0 <= i < |s| && 0 <= j < |s| && i != j :: s[i] != s[j]
  }

  /** Feeding the character at index i of the stream makes the detector fire:
   *  more than n characters have been fed and the n ending at i are distinct. */
  predicate MarkerAt(s: string, n: nat, i: nat)
  {
    n <= i < |s| && PairwiseDistinct(s[i + 1 - n..i + 1])
  }

  /** k is the index of the first character that makes the detector fire, or
   *  the stream length when none does. */
  predicate IsFirstMarker(s: string, n: nat, k: nat)
  {
    k <= |s| && (forall j :: 0 <= j < k ==> !MarkerAt(s, n, j)) && (k < |s| ==> MarkerAt(s, n, k))
  }

  /** There is only one first marker. */
  lemma FirstMarkerUnique(s: string, n: nat, k1: nat, k2: nat)
    requires IsFirstMarker(s, n, k1) && IsFirstMarker(s, n, k2)
    ensures k1 == k2
  {
  }

  /** Checking each pair once, in index order, is enough. */
  lemma OrderedDistinct(w: seq<char>)
    requires forall i, j | 0 <= i < j < |w| :: w[i] != w[j]
    ensures PairwiseDistinct(w)
  {
    forall i, j | 0 <= i < |w| && 0 <= j < |w| && i != j ensures w[i] != w[j] {
      if j < i {
        assert w[j] != w[i];
      }
    }
  }

  lemma ReversePush(x: seq<char>, c: char)
    ensures Reverse(x + [c]) == [c] + Reverse(x)
  {
  }

  lemma {:induction false} ReverseDrop(x: seq<char>, k: nat)
    requires k <= |x|
    ensures Reverse(x)[..k] == Reverse(x[|x| - k..])
    decreases |x|
  {
    if k == |x| {
      assert x[|x| - k..] == x;
    } else {
      var t := Reverse(x[1..]);
      assert Reverse(x) == t + [x[0]];
      assert Reverse(x)[..k] == t[..k];
      ReverseDrop(x[1..], k);
      assert x[1..][|x| - 1 - k..] == x[|x| - k..];
    }
  }

  class StartDetector {
    /** The window size, the const generic `N` of the source. */
    const n: nat
    /** The last min(fed, n) characters, newest at the front. */
    var state: seq<char>
    /** Every character fed so far. */
    ghost var fed: seq<char>

    ghost predicate Valid()
      reads this
    {
      |state| == Min(|fed|, n) && state == Reverse(fed[|fed| - |state|..])
    }

    constructor (n: nat)
      ensures Valid() && this.n == n && fed == [] && state == []
    {
      this.n := n;
      state := [];
      fed := [];
    }

    /** `StartDetector::detect`. */
    method Detect(c: char) returns (found: bool)
      requires Valid()
      modifies this
      ensures Valid() && fed == old(fed) + [c]
      ensures |state| <= n && (|state| > 0 ==> state[0] == c)
      ensures found <==> |fed| > n && PairwiseDistinct(fed[|fed| - n..])
    {
      ghost var window := fed[|fed| - |state|..];
      state := [c] + state;
      fed := fed + [c];
      ReversePush(window, c);
      assert window + [c] == fed[|fed| - |state|..];
      if |state| == n + 1 {
        DropOldest(fed, n);
        state := state[..n];
        found := PairwiseDistinct(state);
        DistinctReverse(fed[|fed| - n..]);
      } else {
        found := false;
      }
    }
  }

  /** Dropping the last element of the reversed n + 1 newest leaves the
   *  reversed n newest. */
  lemma DropOldest(fed: seq<char>, n: nat)
    requires n < |fed|
    ensures Reverse(fed[|fed| - (n + 1)..])[..n] == Reverse(fed[|fed| - n..])
  {
    ReverseDrop(fed[|fed| - (n + 1)..], n);
    assert fed[|fed| - (n + 1)..][n + 1 - n..] == fed[|fed| - n..];
  }

  lemma DistinctReverse(s: seq<char>)
    ensures PairwiseDistinct(Reverse(s)) <==> PairwiseDistinct(s)
  {
    var r := Reverse(s);
    if PairwiseDistinct(s) {
      forall i, j | 0 <= i < |r| && 0 <= j < |r| && i != j ensures r[i] != r[j] {
        assert r[i] == s[|s| - 1 - i] && r[j] == s[|s| - 1 - j];
      }
    }
    if PairwiseDistinct(r) {
      forall i, j | 0 <= i < |s| && 0 <= j < |s| && i != j ensures s[i] != s[j] {
        assert r[|s| - 1 - i] == s[i] && r[|s| - 1 - j] == s[j];
      }
    }
  }

  /** `find_marker`: one plus the number of characters fed before the detector
   *  first fires, or the stream length plus one if it never does. */
  method FindMarker(n: nat, stream: string) returns (count: nat)
    ensures count >= 1 && IsFirstMarker(stream, n, count - 1)
  {
    var detector := new StartDetector(n);
    var i := 0;
    while i < |stream|
      invariant 0 <= i <= |stream|
      invariant detector.Valid() && detector.n == n && detector.fed == stream[..i]
      invariant forall j :: 0 <= j < i ==> !MarkerAt(stream, n, j)
    {
      var found := Feed(detector, stream, i);
      if found {
        return i + 1;
      }
      i := i + 1;
    }
    return |stream| + 1;
  }


  /** Feeds the character at index i of the stream, all before it having been
   *  fed already; the detector fires exactly at a marker. */
  method Feed(detector: StartDetector, stream: string, i: nat) returns (found: bool)
    requires i < |stream| && detector.Valid() && detector.fed == stream[..i]
    modifies detector
    ensures detector.Valid() && detector.fed == stream[..i + 1]
    ensures found <==> MarkerAt(stream, detector.n, i)
  {
    found := detector.Detect(stream[i]);
    assert detector.fed == stream[..i + 1];
    FedMarker(stream, detector.n, i, detector.fed);
  }

  /** Having fed the stream up to index i, the detector's firing condition is
   *  the marker condition at i. */
  lemma FedMarker(stream: string, n: nat, i: nat, fed: string)
    requires i < |stream| && fed == stream[..i + 1]
    ensures (|fed| > n && PairwiseDistinct(fed[|fed| - n..])) <==> MarkerAt(stream, n, i)
  {
    if i >= n {
      assert stream[..i + 1][i + 1 - n..] == stream[i + 1 - n..i + 1];
    }
  }

  /** A distinct window ending at i marks i. */
  lemma WindowMarker(s: string, n: nat, i: nat, w: string)
    requires n <= i < |s| && s[i + 1 - n..i + 1] == w && PairwiseDistinct(w)
    ensures MarkerAt(s, n, i)
  {
  }

  lemma PacketWindow1()
    ensures PairwiseDistinct("jpqm")
  {
    assert forall i, j | 0 <= i < j < |"jpqm"| :: "jpqm"[i] != "jpqm"[j];
    OrderedDistinct("jpqm");
  }

  lemma PacketSlice1()
    ensures "mjqjpqmgbljsphdztnvjfqwrcgsmlb"[3..7] == "jpqm"
  {
    var s := "mjqjpqmgbljsphdztnvjfqwrcgsmlb";
    assert s[3] == 'j';
    assert s[4] == 'p';
    assert s[5] == 'q';
    assert s[6] == 'm';
  }

  lemma PacketFires1()
    ensures MarkerAt("mjqjpqmgbljsphdztnvjfqwrcgsmlb", 4, 6)
  {
    PacketSlice1();
    PacketWindow1();
    WindowMarker("mjqjpqmgbljsphdztnvjfqwrcgsmlb", 4, 6, "jpqm");
  }

  lemma PacketSample1()
    ensures IsFirstMarker("mjqjpqmgbljsphdztnvjfqwrcgsmlb", 4, 6)
  {
    var s := "mjqjpqmgbljsphdztnvjfqwrcgsmlb";
    PacketFires1();
    forall j | 0 <= j < 6 ensures !MarkerAt(s, 4, j) {
      if j == 4 {
        assert s[1..5][0] == s[1..5][2] by {
          assert s[1] == 'j';
          assert s[3] == 'j';
        }
      } else if j == 5 {
        assert s[2..6][0] == s[2..6][3] by {
          assert s[2] == 'q';
          assert s[5] == 'q';
        }
      }
    }
  }

  lemma PacketWindow2()
    ensures PairwiseDistinct("vwbj")
  {
    assert forall i, j | 0 <= i < j < |"vwbj"| :: "vwbj"[i] != "vwbj"[j];
    OrderedDistinct("vwbj");
  }

  lemma PacketSlice2()
    ensures "bvwbjplbgvbhsrlpgdmjqwftvncz"[1..5] == "vwbj"
  {
    var s := "bvwbjplbgvbhsrlpgdmjqwftvncz";
    assert s[1] == 'v';
    assert s[2] == 'w';
    assert s[3] == 'b';
    assert s[4] == 'j';
  }

  lemma PacketFires2()
    ensures MarkerAt("bvwbjplbgvbhsrlpgdmjqwftvncz", 4, 4)
  {
    PacketSlice2();
    PacketWindow2();
    WindowMarker("bvwbjplbgvbhsrlpgdmjqwftvncz", 4, 4, "vwbj");
  }

  lemma PacketSample2()
    ensures IsFirstMarker("bvwbjplbgvbhsrlpgdmjqwftvncz", 4, 4)
  {
    var s := "bvwbjplbgvbhsrlpgdmjqwftvncz";
    PacketFires2();
  }

  lemma PacketWindow3()
    ensures PairwiseDistinct("pdvj")
  {
    assert forall i, j | 0 <= i < j < |"pdvj"| :: "pdvj"[i] != "pdvj"[j];
    OrderedDistinct("pdvj");
  }

  lemma PacketSlice3()
    ensures "nppdvjthqldpwncqszvftbrmjlhg"[2..6] == "pdvj"
  {
    var s := "nppdvjthqldpwncqszvftbrmjlhg";
    assert s[2] == 'p';
    assert s[3] == 'd';
    assert s[4] == 'v';
    assert s[5] == 'j';
  }

  lemma PacketFires3()
    ensures MarkerAt("nppdvjthqldpwncqszvftbrmjlhg", 4, 5)
  {
    PacketSlice3();
    PacketWindow3();
    WindowMarker("nppdvjthqldpwncqszvftbrmjlhg", 4, 5, "pdvj");
  }

  lemma PacketSample3()
    ensures IsFirstMarker("nppdvjthqldpwncqszvftbrmjlhg", 4, 5)
  {
    var s := "nppdvjthqldpwncqszvftbrmjlhg";
    PacketFires3();
    forall j | 0 <= j < 5 ensures !MarkerAt(s, 4, j) {
      if j == 4 {
        assert s[1..5][0] == s[1..5][1] by {
          assert s[1] == 'p';
          assert s[2] == 'p';
        }
      }
    }
  }

  lemma PacketWindow4()
    ensures PairwiseDistinct("rfnt")
  {
    assert forall i, j | 0 <= i < j < |"rfnt"| :: "rfnt"[i] != "rfnt"[j];
    OrderedDistinct("rfnt");
  }

  lemma PacketSlice4()
    ensures "nznrnfrfntjfmvfwmzdfjlvtqnbhcprsg"[6..10] == "rfnt"
  {
    var s := "nznrnfrfntjfmvfwmzdfjlvtqnbhcprsg";
    assert s[6] == 'r';
    assert s[7] == 'f';
    assert s[8] == 'n';
    assert s[9] == 't';
  }

  lemma PacketFires4()
    ensures MarkerAt("nznrnfrfntjfmvfwmzdfjlvtqnbhcprsg", 4, 9)
  {
    PacketSlice4();
    PacketWindow4();
    WindowMarker("nznrnfrfntjfmvfwmzdfjlvtqnbhcprsg", 4, 9, "rfnt");
  }

  lemma PacketSample4()
    ensures IsFirstMarker("nznrnfrfntjfmvfwmzdfjlvtqnbhcprsg", 4, 9)
  {
    var s := "nznrnfrfntjfmvfwmzdfjlvtqnbhcprsg";
    PacketFires4();
    forall j | 0 <= j < 9 ensures !MarkerAt(s, 4, j) {
      if j == 4 {
        assert s[1..5][1] == s[1..5][3] by {
          assert s[2] == 'n';
          assert s[4] == 'n';
        }
      } else if j == 5 {
        assert s[2..6][0] == s[2..6][2] by {
          assert s[2] == 'n';
          assert s[4] == 'n';
        }
      } else if j == 6 {
        assert s[3..7][0] == s[3..7][3] by {
          assert s[3] == 'r';
          assert s[6] == 'r';
        }
      } else if j == 7 {
        assert s[4..8][1] == s[4..8][3] by {
          assert s[5] == 'f';
          assert s[7] == 'f';
        }
      } else if j == 8 {
        assert s[5..9][0] == s[5..9][2] by {
          assert s[5] == 'f';
          assert s[7] == 'f';
        }
      }
    }
  }

  lemma PacketWindow5()
    ensures PairwiseDistinct("zqfr")
  {
    assert forall i, j | 0 <= i < j < |"zqfr"| :: "zqfr"[i] != "zqfr"[j];
    OrderedDistinct("zqfr");
  }

  lemma PacketSlice5()
    ensures "zcfzfwzzqfrljwzlrfnpqdbhtmscgvjw"[7..11] == "zqfr"
  {
    var s := "zcfzfwzzqfrljwzlrfnpqdbhtmscgvjw";
    assert s[7] == 'z';
    assert s[8] == 'q';
    assert s[9] == 'f';
    assert s[10] == 'r';
  }

  lemma PacketFires5()
    ensures MarkerAt("zcfzfwzzqfrljwzlrfnpqdbhtmscgvjw", 4, 10)
  {
    PacketSlice5();
    PacketWindow5();
    WindowMarker("zcfzfwzzqfrljwzlrfnpqdbhtmscgvjw", 4, 10, "zqfr");
  }

  lemma PacketSample5()
    ensures IsFirstMarker("zcfzfwzzqfrljwzlrfnpqdbhtmscgvjw", 4, 10)
  {
    var s := "zcfzfwzzqfrljwzlrfnpqdbhtmscgvjw";
    PacketFires5();
    forall j | 0 <= j < 10 ensures !MarkerAt(s, 4, j) {
      if j == 4 {
        assert s[1..5][1] == s[1..5][3] by {
          assert s[2] == 'f';
          assert s[4] == 'f';
        }
      } else if j == 5 {
        assert s[2..6][0] == s[2..6][2] by {
          assert s[2] == 'f';
          assert s[4] == 'f';
        }
      } else if j == 6 {
        assert s[3..7][0] == s[3..7][3] by {
          assert s[3] == 'z';
          assert s[6] == 'z';
        }
      } else if j == 7 {
        assert s[4..8][2] == s[4..8][3] by {
          assert s[6] == 'z';
          assert s[7] == 'z';
        }
      } else if j == 8 {
        assert s[5..9][1] == s[5..9][2] by {
          assert s[6] == 'z';
          assert s[7] == 'z';
        }
      } else if j == 9 {
        assert s[6..10][0] == s[6..10][1] by {
          assert s[6] == 'z';
          assert s[7] == 'z';
        }
      }
    }
  }

  lemma MessageWindow1()
    ensures PairwiseDistinct("qmgbljsphdztnv")
  {
    assert forall i, j | 0 <= i < j < |"qmgbljsphdztnv"| :: "qmgbljsphdztnv"[i] != "qmgbljsphdztnv"[j];
    OrderedDistinct("qmgbljsphdztnv");
  }

  lemma MessageSlice1()
    ensures "mjqjpqmgbljsphdztnvjfqwrcgsmlb"[5..19] == "qmgbljsphdztnv"
  {
    var s := "mjqjpqmgbljsphdztnvjfqwrcgsmlb";
    assert s[5] == 'q';
    assert s[6] == 'm';
    assert s[7] == 'g';
    assert s[8] == 'b';
    assert s[9] == 'l';
    assert s[10] == 'j';
    assert s[11] == 's';
    assert s[12] == 'p';
    assert s[13] == 'h';
    assert s[14] == 'd';
    assert s[15] == 'z';
    assert s[16] == 't';
    assert s[17] == 'n';
    assert s[18] == 'v';
  }

  lemma MessageFires1()
    ensures MarkerAt("mjqjpqmgbljsphdztnvjfqwrcgsmlb", 14, 18)
  {
    MessageSlice1();
    MessageWindow1();
    WindowMarker("mjqjpqmgbljsphdztnvjfqwrcgsmlb", 14, 18, "qmgbljsphdztnv");
  }

  lemma MessageSample1()
    ensures IsFirstMarker("mjqjpqmgbljsphdztnvjfqwrcgsmlb", 14, 18)
  {
    var s := "mjqjpqmgbljsphdztnvjfqwrcgsmlb";
    MessageFires1();
    forall j | 0 <= j < 18 ensures !MarkerAt(s, 14, j) {
      if j == 14 {
        assert s[1..15][0] == s[1..15][2] by {
          assert s[1] == 'j';
          assert s[3] == 'j';
        }
      } else if j == 15 {
        assert s[2..16][0] == s[2..16][3] by {
          assert s[2] == 'q';
          assert s[5] == 'q';
        }
      } else if j == 16 {
        assert s[3..17][0] == s[3..17][7] by {
          assert s[3] == 'j';
          assert s[10] == 'j';
        }
      } else if j == 17 {
        assert s[4..18][0] == s[4..18][8] by {
          assert s[4] == 'p';
          assert s[12] == 'p';
        }
      }
    }
  }

  lemma MessageWindow2()
    ensures PairwiseDistinct("vbhsrlpgdmjqwf")
  {
    assert forall i, j | 0 <= i < j < |"vbhsrlpgdmjqwf"| :: "vbhsrlpgdmjqwf"[i] != "vbhsrlpgdmjqwf"[j];
    OrderedDistinct("vbhsrlpgdmjqwf");
  }

  lemma MessageSlice2()
    ensures "bvwbjplbgvbhsrlpgdmjqwftvncz"[9..23] == "vbhsrlpgdmjqwf"
  {
    var s := "bvwbjplbgvbhsrlpgdmjqwftvncz";
    assert s[9] == 'v';
    assert s[10] == 'b';
    assert s[11] == 'h';
    assert s[12] == 's';
    assert s[13] == 'r';
    assert s[14] == 'l';
    assert s[15] == 'p';
    assert s[16] == 'g';
    assert s[17] == 'd';
    assert s[18] == 'm';
    assert s[19] == 'j';
    assert s[20] == 'q';
    assert s[21] == 'w';
    assert s[22] == 'f';
  }

  lemma MessageFires2()
    ensures MarkerAt("bvwbjplbgvbhsrlpgdmjqwftvncz", 14, 22)
  {
    MessageSlice2();
    MessageWindow2();
    WindowMarker("bvwbjplbgvbhsrlpgdmjqwftvncz", 14, 22, "vbhsrlpgdmjqwf");
  }

  lemma MessageSample2()
    ensures IsFirstMarker("bvwbjplbgvbhsrlpgdmjqwftvncz", 14, 22)
  {
    var s := "bvwbjplbgvbhsrlpgdmjqwftvncz";
    MessageFires2();
    forall j | 0 <= j < 22 ensures !MarkerAt(s, 14, j) {
      if j == 14 {
        assert s[1..15][0] == s[1..15][8] by {
          assert s[1] == 'v';
          assert s[9] == 'v';
        }
      } else if j == 15 {
        assert s[2..16][1] == s[2..16][5] by {
          assert s[3] == 'b';
          assert s[7] == 'b';
        }
      } else if j == 16 {
        assert s[3..17][0] == s[3..17][4] by {
          assert s[3] == 'b';
          assert s[7] == 'b';
        }
      } else if j == 17 {
        assert s[4..18][1] == s[4..18][11] by {
          assert s[5] == 'p';
          assert s[15] == 'p';
        }
      } else if j == 18 {
        assert s[5..19][0] == s[5..19][10] by {
          assert s[5] == 'p';
          assert s[15] == 'p';
        }
      } else if j == 19 {
        assert s[6..20][0] == s[6..20][8] by {
          assert s[6] == 'l';
          assert s[14] == 'l';
        }
      } else if j == 20 {
        assert s[7..21][0] == s[7..21][3] by {
          assert s[7] == 'b';
          assert s[10] == 'b';
        }
      } else if j == 21 {
        assert s[8..22][0] == s[8..22][8] by {
          assert s[8] == 'g';
          assert s[16] == 'g';
        }
      }
    }
  }

  lemma MessageWindow3()
    ensures PairwiseDistinct("ldpwncqszvftbr")
  {
    assert forall i, j | 0 <= i < j < |"ldpwncqszvftbr"| :: "ldpwncqszvftbr"[i] != "ldpwncqszvftbr"[j];
    OrderedDistinct("ldpwncqszvftbr");
  }

  lemma MessageSlice3()
    ensures "nppdvjthqldpwncqszvftbrmjlhg"[9..23] == "ldpwncqszvftbr"
  {
    var s := "nppdvjthqldpwncqszvftbrmjlhg";
    assert s[9] == 'l';
    assert s[10] == 'd';
    assert s[11] == 'p';
    assert s[12] == 'w';
    assert s[13] == 'n';
    assert s[14] == 'c';
    assert s[15] == 'q';
    assert s[16] == 's';
    assert s[17] == 'z';
    assert s[18] == 'v';
    assert s[19] == 'f';
    assert s[20] == 't';
    assert s[21] == 'b';
    assert s[22] == 'r';
  }

  lemma MessageFires3()
    ensures MarkerAt("nppdvjthqldpwncqszvftbrmjlhg", 14, 22)
  {
    MessageSlice3();
    MessageWindow3();
    WindowMarker("nppdvjthqldpwncqszvftbrmjlhg", 14, 22, "ldpwncqszvftbr");
  }

  lemma MessageSample3()
    ensures IsFirstMarker("nppdvjthqldpwncqszvftbrmjlhg", 14, 22)
  {
    var s := "nppdvjthqldpwncqszvftbrmjlhg";
    MessageFires3();
    forall j | 0 <= j < 22 ensures !MarkerAt(s, 14, j) {
      if j == 14 {
        assert s[1..15][0] == s[1..15][1] by {
          assert s[1] == 'p';
          assert s[2] == 'p';
        }
      } else if j == 15 {
        assert s[2..16][0] == s[2..16][9] by {
          assert s[2] == 'p';
          assert s[11] == 'p';
        }
      } else if j == 16 {
        assert s[3..17][0] == s[3..17][7] by {
          assert s[3] == 'd';
          assert s[10] == 'd';
        }
      } else if j == 17 {
        assert s[4..18][4] == s[4..18][11] by {
          assert s[8] == 'q';
          assert s[15] == 'q';
        }
      } else if j == 18 {
        assert s[5..19][3] == s[5..19][10] by {
          assert s[8] == 'q';
          assert s[15] == 'q';
        }
      } else if j == 19 {
        assert s[6..20][2] == s[6..20][9] by {
          assert s[8] == 'q';
          assert s[15] == 'q';
        }
      } else if j == 20 {
        assert s[7..21][1] == s[7..21][8] by {
          assert s[8] == 'q';
          assert s[15] == 'q';
        }
      } else if j == 21 {
        assert s[8..22][0] == s[8..22][7] by {
          assert s[8] == 'q';
          assert s[15] == 'q';
        }
      }
    }
  }

  lemma MessageWindow4()
    ensures PairwiseDistinct("wmzdfjlvtqnbhc")
  {
    assert forall i, j | 0 <= i < j < |"wmzdfjlvtqnbhc"| :: "wmzdfjlvtqnbhc"[i] != "wmzdfjlvtqnbhc"[j];
    OrderedDistinct("wmzdfjlvtqnbhc");
  }

  lemma MessageSlice4()
    ensures "nznrnfrfntjfmvfwmzdfjlvtqnbhcprsg"[15..29] == "wmzdfjlvtqnbhc"
  {
    var s := "nznrnfrfntjfmvfwmzdfjlvtqnbhcprsg";
    assert s[15] == 'w';
    assert s[16] == 'm';
    assert s[17] == 'z';
    assert s[18] == 'd';
    assert s[19] == 'f';
    assert s[20] == 'j';
    assert s[21] == 'l';
    assert s[22] == 'v';
    assert s[23] == 't';
    assert s[24] == 'q';
    assert s[25] == 'n';
    assert s[26] == 'b';
    assert s[27] == 'h';
    assert s[28] == 'c';
  }

  lemma MessageFires4()
    ensures MarkerAt("nznrnfrfntjfmvfwmzdfjlvtqnbhcprsg", 14, 28)
  {
    MessageSlice4();
    MessageWindow4();
    WindowMarker("nznrnfrfntjfmvfwmzdfjlvtqnbhcprsg", 14, 28, "wmzdfjlvtqnbhc");
  }

  lemma MessageSample4()
    ensures IsFirstMarker("nznrnfrfntjfmvfwmzdfjlvtqnbhcprsg", 14, 28)
  {
    var s := "nznrnfrfntjfmvfwmzdfjlvtqnbhcprsg";
    MessageFires4();
    forall j | 0 <= j < 28 ensures !MarkerAt(s, 14, j) {
      if j == 14 {
        assert s[1..15][1] == s[1..15][3] by {
          assert s[2] == 'n';
          assert s[4] == 'n';
        }
      } else if j == 15 {
        assert s[2..16][0] == s[2..16][2] by {
          assert s[2] == 'n';
          assert s[4] == 'n';
        }
      } else if j == 16 {
        assert s[3..17][0] == s[3..17][3] by {
          assert s[3] == 'r';
          assert s[6] == 'r';
        }
      } else if j == 17 {
        assert s[4..18][0] == s[4..18][4] by {
          assert s[4] == 'n';
          assert s[8] == 'n';
        }
      } else if j == 18 {
        assert s[5..19][0] == s[5..19][2] by {
          assert s[5] == 'f';
          assert s[7] == 'f';
        }
      } else if j == 19 {
        assert s[6..20][1] == s[6..20][5] by {
          assert s[7] == 'f';
          assert s[11] == 'f';
        }
      } else if j == 20 {
        assert s[7..21][0] == s[7..21][4] by {
          assert s[7] == 'f';
          assert s[11] == 'f';
        }
      } else if j == 21 {
        assert s[8..22][2] == s[8..22][12] by {
          assert s[10] == 'j';
          assert s[20] == 'j';
        }
      } else if j == 22 {
        assert s[9..23][1] == s[9..23][11] by {
          assert s[10] == 'j';
          assert s[20] == 'j';
        }
      } else if j == 23 {
        assert s[10..24][0] == s[10..24][10] by {
          assert s[10] == 'j';
          assert s[20] == 'j';
        }
      } else if j == 24 {
        assert s[11..25][0] == s[11..25][3] by {
          assert s[11] == 'f';
          assert s[14] == 'f';
        }
      } else if j == 25 {
        assert s[12..26][0] == s[12..26][4] by {
          assert s[12] == 'm';
          assert s[16] == 'm';
        }
      } else if j == 26 {
        assert s[13..27][0] == s[13..27][9] by {
          assert s[13] == 'v';
          assert s[22] == 'v';
        }
      } else if j == 27 {
        assert s[14..28][0] == s[14..28][5] by {
          assert s[14] == 'f';
          assert s[19] == 'f';
        }
      }
    }
  }

  lemma MessageWindow5()
    ensures PairwiseDistinct("jwzlrfnpqdbhtm")
  {
    assert forall i, j | 0 <= i < j < |"jwzlrfnpqdbhtm"| :: "jwzlrfnpqdbhtm"[i] != "jwzlrfnpqdbhtm"[j];
    OrderedDistinct("jwzlrfnpqdbhtm");
  }

  lemma MessageSlice5()
    ensures "zcfzfwzzqfrljwzlrfnpqdbhtmscgvjw"[12..26] == "jwzlrfnpqdbhtm"
  {
    var s := "zcfzfwzzqfrljwzlrfnpqdbhtmscgvjw";
    assert s[12] == 'j';
    assert s[13] == 'w';
    assert s[14] == 'z';
    assert s[15] == 'l';
    assert s[16] == 'r';
    assert s[17] == 'f';
    assert s[18] == 'n';
    assert s[19] == 'p';
    assert s[20] == 'q';
    assert s[21] == 'd';
    assert s[22] == 'b';
    assert s[23] == 'h';
    assert s[24] == 't';
    assert s[25] == 'm';
  }

  lemma MessageFires5()
    ensures MarkerAt("zcfzfwzzqfrljwzlrfnpqdbhtmscgvjw", 14, 25)
  {
    MessageSlice5();
    MessageWindow5();
    WindowMarker("zcfzfwzzqfrljwzlrfnpqdbhtmscgvjw", 14, 25, "jwzlrfnpqdbhtm");
  }

  lemma MessageSample5()
    ensures IsFirstMarker("zcfzfwzzqfrljwzlrfnpqdbhtmscgvjw", 14, 25)
  {
    var s := "zcfzfwzzqfrljwzlrfnpqdbhtmscgvjw";
    MessageFires5();
    forall j | 0 <= j < 25 ensures !MarkerAt(s, 14, j) {
      if j == 14 {
        assert s[1..15][1] == s[1..15][3] by {
          assert s[2] == 'f';
          assert s[4] == 'f';
        }
      } else if j == 15 {
        assert s[2..16][0] == s[2..16][2] by {
          assert s[2] == 'f';
          assert s[4] == 'f';
        }
      } else if j == 16 {
        assert s[3..17][0] == s[3..17][3] by {
          assert s[3] == 'z';
          assert s[6] == 'z';
        }
      } else if j == 17 {
        assert s[4..18][0] == s[4..18][5] by {
          assert s[4] == 'f';
          assert s[9] == 'f';
        }
      } else if j == 18 {
        assert s[5..19][0] == s[5..19][8] by {
          assert s[5] == 'w';
          assert s[13] == 'w';
        }
      } else if j == 19 {
        assert s[6..20][0] == s[6..20][1] by {
          assert s[6] == 'z';
          assert s[7] == 'z';
        }
      } else if j == 20 {
        assert s[7..21][0] == s[7..21][7] by {
          assert s[7] == 'z';
          assert s[14] == 'z';
        }
      } else if j == 21 {
        assert s[8..22][0] == s[8..22][12] by {
          assert s[8] == 'q';
          assert s[20] == 'q';
        }
      } else if j == 22 {
        assert s[9..23][0] == s[9..23][8] by {
          assert s[9] == 'f';
          assert s[17] == 'f';
        }
      } else if j == 23 {
        assert s[10..24][0] == s[10..24][6] by {
          assert s[10] == 'r';
          assert s[16] == 'r';
        }
      } else if j == 24 {
        assert s[11..25][0] == s[11..25][4] by {
          assert s[11] == 'l';
          assert s[15] == 'l';
        }
      }
    }
  }

  /** The sample streams asserted in `main`, for the packet (4) and message
   *  (14) window sizes. */
  method Examples() returns (packet: seq<nat>, message: seq<nat>)
    ensures packet == [7, 5, 6, 10, 11]
    ensures message == [19, 23, 23, 29, 26]
  {
    PacketSample1(); PacketSample2(); PacketSample3(); PacketSample4(); PacketSample5();
    MessageSample1(); MessageSample2(); MessageSample3(); MessageSample4(); MessageSample5();
    packet := [];
    message := [];
    var p1 := FindMarker(4, "mjqjpqmgbljsphdztnvjfqwrcgsmlb"); FirstMarkerUnique("mjqjpqmgbljsphdztnvjfqwrcgsmlb", 4, p1 - 1, 6);
    var p2 := FindMarker(4, "bvwbjplbgvbhsrlpgdmjqwftvncz"); FirstMarkerUnique("bvwbjplbgvbhsrlpgdmjqwftvncz", 4, p2 - 1, 4);
    var p3 := FindMarker(4, "nppdvjthqldpwncqszvftbrmjlhg"); FirstMarkerUnique("nppdvjthqldpwncqszvftbrmjlhg", 4, p3 - 1, 5);
    var p4 := FindMarker(4, "nznrnfrfntjfmvfwmzdfjlvtqnbhcprsg"); FirstMarkerUnique("nznrnfrfntjfmvfwmzdfjlvtqnbhcprsg", 4, p4 - 1, 9);
    var p5 := FindMarker(4, "zcfzfwzzqfrljwzlrfnpqdbhtmscgvjw"); FirstMarkerUnique("zcfzfwzzqfrljwzlrfnpqdbhtmscgvjw", 4, p5 - 1, 10);
    packet := [p1, p2, p3, p4, p5];
    var m1 := FindMarker(14, "mjqjpqmgbljsphdztnvjfqwrcgsmlb"); FirstMarkerUnique("mjqjpqmgbljsphdztnvjfqwrcgsmlb", 14, m1 - 1, 18);
    var m2 := FindMarker(14, "bvwbjplbgvbhsrlpgdmjqwftvncz"); FirstMarkerUnique("bvwbjplbgvbhsrlpgdmjqwftvncz", 14, m2 - 1, 22);
    var m3 := FindMarker(14, "nppdvjthqldpwncqszvftbrmjlhg"); FirstMarkerUnique("nppdvjthqldpwncqszvftbrmjlhg", 14, m3 - 1, 22);
    var m4 := FindMarker(14, "nznrnfrfntjfmvfwmzdfjlvtqnbhcprsg"); FirstMarkerUnique("nznrnfrfntjfmvfwmzdfjlvtqnbhcprsg", 14, m4 - 1, 28);
    var m5 := FindMarker(14, "zcfzfwzzqfrljwzlrfnpqdbhtmscgvjw"); FirstMarkerUnique("zcfzfwzzqfrljwzlrfnpqdbhtmscgvjw", 14, m5 - 1, 25);
    message := [m1, m2, m3, m4, m5];
  }
}

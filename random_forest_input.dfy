/**
 * RandomForestInput.java: readData turns comma-separated lines into samples.
 * Field 0 of a line is the decision, field i (i >= 1) the value of the
 * attribute named by the decimal text of i, and every attribute's values are
 * collected, without duplicates and in order of first appearance, into the
 * caller's attribute map, which is changed in place. The file is taken as its
 * sequence of lines.
 */
module ForestInput {
  import opened Wrappers
  import opened Samples
  import opened Counters

  // ---------------------------------------------------------------- String.split(",")

  /** The pieces of s between its commas: every comma separates two fields. */
  function Fields(s: string): (fs: seq<string>)
    ensures |fs| >= 1
  {
    if s == [] then [""]
    else
      var rest := Fields(s[1..]);
      if s[0] == ',' then [""] + rest
      else [[s[0]] + rest[0]] + rest[1..]
  }

  /** No field holds a comma. */
  lemma {:induction false} FieldsCommaFree(s: string)
    ensures forall i :: 0 <= i < |Fields(s)| ==> ',' !in Fields(s)[i]
  {
    if s != [] {
      FieldsCommaFree(s[1..]);
      var rest := Fields(s[1..]);
      if s[0] != ',' {
        assert Fields(s)[1..] == rest[1..];
      }
    }
  }

  /** The fields written out with a comma between each two. */
  function Join(fs: seq<string>): string
    requires |fs| >= 1
  {
    if |fs| == 1 then fs[0] else fs[0] + ("," + Join(fs[1..]))
  }

  /** Gluing a character to the front of the first field glues it to the front of the joined text. */
  lemma {:induction false} JoinGlued(c: char, fs: seq<string>)
    requires |fs| >= 1
    ensures Join([[c] + fs[0]] + fs[1..]) == [c] + Join(fs)
  {
    var gs := [[c] + fs[0]] + fs[1..];
    if |fs| > 1 {
      var j := "," + Join(fs[1..]);
      assert gs[1..] == fs[1..];
      assert Join(gs) == ([c] + fs[0]) + j;
      assert ([c] + fs[0]) + j == [c] + (fs[0] + j);
    } else {
      assert gs == [[c] + fs[0]];
    }
  }

  /** Splitting at every comma and joining back gives the line again. */
  lemma {:induction false} JoinFields(s: string)
    ensures Join(Fields(s)) == s
  {
    if s != [] {
      JoinFields(s[1..]);
      var rest := Fields(s[1..]);
      assert s == [s[0]] + s[1..];
      if s[0] == ',' {
        assert Fields(s) == [""] + rest;
        assert Join(Fields(s)) == "" + ("," + Join(rest));
      } else {
        JoinGlued(s[0], rest);
      }
    }
  }

  /** A comma-free prefix stays glued to the first field of what follows it. */
  lemma {:induction false} FieldsOfPrefixed(a: string, t: string)
    requires ',' !in a
    ensures Fields(a + t) == [a + Fields(t)[0]] + Fields(t)[1..]
  {
    if a != [] {
      assert (a + t)[0] == a[0] && (a + t)[1..] == a[1..] + t;
      FieldsOfPrefixed(a[1..], t);
      var rest := Fields(a[1..] + t);
      assert rest[0] == a[1..] + Fields(t)[0] && rest[1..] == Fields(t)[1..];
      assert [a[0]] + (a[1..] + Fields(t)[0]) == a + Fields(t)[0];
    } else {
      assert a + t == t && a + Fields(t)[0] == Fields(t)[0];
    }
  }

  /** Joining comma-free fields and splitting at every comma gives the fields again. */
  lemma {:induction false} FieldsJoin(fs: seq<string>)
    requires |fs| >= 1 && forall i :: 0 <= i < |fs| ==> ',' !in fs[i]
    ensures Fields(Join(fs)) == fs
  {
    if |fs| == 1 {
      FieldsOfPrefixed(fs[0], "");
      assert fs[0] + "" == fs[0];
    } else {
      var rest := Join(fs[1..]);
      FieldsJoin(fs[1..]);
      FieldsOfPrefixed(fs[0], "," + rest);
      assert ("," + rest)[1..] == rest;
      assert fs[0] + "" == fs[0];
    }
  }

  /** fs without its trailing empty strings. */
  function DropTrailingEmpty(fs: seq<string>): (r: seq<string>)
    ensures |r| <= |fs|
  {
    if fs == [] then []
    else if fs[|fs| - 1] == "" then DropTrailingEmpty(fs[..|fs| - 1])
    else fs
  }

  /** What is dropped is empty strings only, and what is kept is a prefix that does not end in one. */
  lemma {:induction false} DropTrailingEmptyIsPrefix(fs: seq<string>)
    ensures var r := DropTrailingEmpty(fs);
            && r == fs[..|r|]
            && (r != [] ==> r[|r| - 1] != "")
            && forall i :: |r| <= i < |fs| ==> fs[i] == ""
  {
    if fs != [] && fs[|fs| - 1] == "" {
      DropTrailingEmptyIsPrefix(fs[..|fs| - 1]);
      var r := DropTrailingEmpty(fs[..|fs| - 1]);
      assert fs[..|fs| - 1][..|r|] == fs[..|r|];
    }
  }

  /**
   * Java's line.split(","): the fields between commas with the trailing empty
   * ones removed; a line without a comma is its own single field, even when
   * it is empty.
   */
  function Split(s: string): seq<string> {
    if ',' !in s then [s] else DropTrailingEmpty(Fields(s))
  }

  /** A line with no comma is a single field. */
  lemma {:induction false} FieldsWithoutComma(s: string)
    requires ',' !in s
    ensures Fields(s) == [s]
  {
    FieldsOfPrefixed(s, "");
    assert s + "" == s;
  }

  /**
   * split(",") inverts writing fields with commas, provided no field holds a
   * comma and the last field is not empty (or there is only one field).
   */
  lemma {:induction false} SplitJoin(fs: seq<string>)
    requires |fs| >= 1 && forall i :: 0 <= i < |fs| ==> ',' !in fs[i]
    requires |fs| == 1 || fs[|fs| - 1] != ""
    ensures Split(Join(fs)) == fs
  {
    if |fs| > 1 {
      assert Join(fs)[|fs[0]|] == ',';
      FieldsJoin(fs);
    }
  }

  /** The fields of split(",") are the line's comma-separated pieces, trailing empty ones aside. */
  lemma {:induction false} SplitIsFieldsPrefix(s: string)
    ensures |Split(s)| <= |Fields(s)| && Split(s) == Fields(s)[..|Split(s)|]
    ensures forall i :: |Split(s)| <= i < |Fields(s)| ==> Fields(s)[i] == ""
  {
    if ',' !in s {
      FieldsWithoutComma(s);
    } else {
      DropTrailingEmptyIsPrefix(Fields(s));
    }
  }

  /** Every field of s is empty exactly when s consists of commas only. */
  lemma {:induction false} FieldsAllEmpty(s: string)
    ensures (forall i :: 0 <= i < |Fields(s)| ==> Fields(s)[i] == "") <==>
              (forall i :: 0 <= i < |s| ==> s[i] == ',')
  {
    if s != [] {
      FieldsAllEmpty(s[1..]);
      var rest := Fields(s[1..]);
      if s[0] == ',' {
        assert Fields(s) == [""] + rest;
        if forall i :: 0 <= i < |rest| ==> rest[i] == "" {
          assert forall i :: 0 <= i < |s| ==> s[i] == ',' by {
            forall i | 0 <= i < |s| ensures s[i] == ',' {
              if i > 0 { assert s[i] == s[1..][i - 1]; }
            }
          }
        } else {
          var i :| 0 <= i < |rest| && rest[i] != "";
          assert Fields(s)[i + 1] != "";
        }
      } else {
        assert Fields(s)[0] != "";
      }
    }
  }

  /**
   * split(",") yields no field at all exactly for a non-empty line made of
   * commas only: the line on which readData fails, since it reads field 0.
   */
  lemma {:induction false} SplitEmptyIff(s: string)
    ensures Split(s) == [] <==> s != [] && forall i :: 0 <= i < |s| ==> s[i] == ','
  {
    FieldsAllEmpty(s);
    SplitIsFieldsPrefix(s);
    if ',' in s && Split(s) != [] {
      DropTrailingEmptyIsPrefix(Fields(s));
      assert Fields(s)[|Split(s)| - 1] != "";
    }
  }

  /**
   * The first field of split(",") is the line's text before its first comma:
   * a comma-free prefix of the line that is the whole line or is followed by a
   * comma.
   */
  lemma {:induction false} FirstFieldIsTextBeforeComma(s: string)
    requires Split(s) != []
    ensures var d := Split(s)[0];
            && |d| <= |s| && d == s[..|d|] && ',' !in d
            && (|d| == |s| || s[|d|] == ',')
  {
    SplitIsFieldsPrefix(s);
    FirstFieldIsPrefix(s);
    FieldsCommaFree(s);
  }

  lemma {:induction false} FirstFieldIsPrefix(s: string)
    ensures var d := Fields(s)[0];
            && |d| <= |s| && d == s[..|d|]
            && (|d| == |s| || s[|d|] == ',')
  {
    if s != [] && s[0] != ',' {
      FirstFieldIsPrefix(s[1..]);
      var d' := Fields(s[1..])[0];
      assert Fields(s)[0] == [s[0]] + d';
      assert s[..|d'| + 1] == [s[0]] + s[1..][..|d'|];
    }
  }

  // ---------------------------------------------------------------- String.valueOf(i)

  /** The character of decimal digit d. */
  function DigitChar(d: nat): (c: char)
    requires d < 10
    ensures '0' <= c <= '9' && (c as int) - ('0' as int) == d
  {
    (('0' as int) + d) as char
  }

  /** String.valueOf(n) for a non-negative n: its decimal digits, most significant first. */
  function NatToString(n: nat): (s: string)
    ensures |s| >= 1
    ensures forall i :: 0 <= i < |s| ==> '0' <= s[i] <= '9'
  {
    if n < 10 then [DigitChar(n)] else NatToString(n / 10) + [DigitChar(n % 10)]
  }

  /** The number a string of decimal digits denotes. */
  function DigitsValue(s: string): nat
    requires |s| >= 1 && forall i :: 0 <= i < |s| ==> '0' <= s[i] <= '9'
  {
    var last := (s[|s| - 1] as int) - ('0' as int);
    if |s| == 1 then last else DigitsValue(s[..|s| - 1]) * 10 + last
  }

  /** Reading the decimal text back gives the number. */
  lemma {:induction false} DigitsValueOfNatToString(n: nat)
    ensures DigitsValue(NatToString(n)) == n
  {
    if n >= 10 {
      var s := NatToString(n);
      assert s[..|s| - 1] == NatToString(n / 10);
      DigitsValueOfNatToString(n / 10);
    }
  }

  /** Distinct attribute indices get distinct attribute names. */
  lemma {:induction false} NatToStringInjective(a: nat, b: nat)
    ensures NatToString(a) == NatToString(b) ==> a == b
  {
    DigitsValueOfNatToString(a);
    DigitsValueOfNatToString(b);
  }

  // ---------------------------------------------------------------- one line

  /** The choices map after putting attributes 1 .. k - 1 of the line: String.valueOf(i) to field i. */
  function ChoicesUpTo(fs: seq<string>, k: nat): map<string, string>
    requires 1 <= k <= |fs|
  {
    if k == 1 then map[] else ChoicesUpTo(fs, k - 1)[NatToString(k - 1) := fs[k - 1]]
  }

  /** The choices map of a line's fields: every field after the first, keyed by its index. */
  function ChoicesOf(fs: seq<string>): map<string, string> {
    if fs == [] then map[] else ChoicesUpTo(fs, |fs|)
  }

  /** The sample a line's fields make: its choices, with field 0 as the decision. */
  function SampleOf(fs: seq<string>): Sample
    requires fs != []
  {
    Sample(ChoicesOf(fs), fs[0])
  }

  /** a is String.valueOf(i) for an index i with 1 <= i < k. */
  predicate NamesIndexBelow(a: string, k: nat) {
    && |a| >= 1 && (forall j :: 0 <= j < |a| ==> '0' <= a[j] <= '9')
    && 1 <= DigitsValue(a) < k && NatToString(DigitsValue(a)) == a
  }

  /** After attributes 1 .. k - 1 are put, every key of the choices names one of those indices. */
  lemma {:induction false} ChoicesUpToKeys(fs: seq<string>, k: nat)
    requires 1 <= k <= |fs|
    ensures forall a :: a in ChoicesUpTo(fs, k) ==> NamesIndexBelow(a, k)
  {
    if k > 1 {
      ChoicesUpToKeys(fs, k - 1);
      DigitsValueOfNatToString(k - 1);
      forall a | a in ChoicesUpTo(fs, k) ensures NamesIndexBelow(a, k) {
        if a != NatToString(k - 1) {
          assert NamesIndexBelow(a, k - 1);
        }
      }
    }
  }

  /** The name of attribute k is not yet a key when attributes 1 .. k - 1 are put. */
  lemma {:induction false} NewKeyIsFresh(fs: seq<string>, k: nat)
    requires 1 <= k < |fs|
    ensures NatToString(k) !in ChoicesUpTo(fs, k)
  {
    ChoicesUpToKeys(fs, k);
    DigitsValueOfNatToString(k);
    assert !NamesIndexBelow(NatToString(k), k);
  }

  /**
   * After attributes 1 .. k - 1 are put, the choices hold field i under the
   * name String.valueOf(i) for each of them, and no other key.
   */
  lemma {:induction false} ChoicesUpToIndexed(fs: seq<string>, k: nat)
    requires 1 <= k <= |fs|
    ensures forall i :: 1 <= i < k ==> NatToString(i) in ChoicesUpTo(fs, k) && ChoicesUpTo(fs, k)[NatToString(i)] == fs[i]
    ensures |ChoicesUpTo(fs, k)| == k - 1
  {
    if k > 1 {
      ChoicesUpToIndexed(fs, k - 1);
      var prev := ChoicesUpTo(fs, k - 1);
      var key := NatToString(k - 1);
      NewKeyIsFresh(fs, k - 1);
      assert |prev[key := fs[k - 1]]| == |prev| + 1;
      forall i | 1 <= i < k ensures NatToString(i) in ChoicesUpTo(fs, k) && ChoicesUpTo(fs, k)[NatToString(i)] == fs[i] {
        if i < k - 1 {
          NatToStringInjective(i, k - 1);
        }
      }
    }
  }

  /**
   * A line's choices hold field i under the name String.valueOf(i) for every
   * i from 1 to the last field, and nothing else: one key per field after the
   * decision.
   */
  lemma {:induction false} ChoicesOfIndexed(fs: seq<string>)
    ensures forall i :: 1 <= i < |fs| ==> NatToString(i) in ChoicesOf(fs) && ChoicesOf(fs)[NatToString(i)] == fs[i]
    ensures forall a :: a in ChoicesOf(fs) ==> NamesIndexBelow(a, |fs|)
    ensures |ChoicesOf(fs)| == if fs == [] then 0 else |fs| - 1
  {
    if fs != [] {
      ChoicesUpToIndexed(fs, |fs|);
      ChoicesUpToKeys(fs, |fs|);
    }
  }

  // ---------------------------------------------------------------- the attribute domains

  /** A list with v added at the end unless it already contains v (the contains / add pair). */
  function Ext1(l: seq<string>, v: string): (r: seq<string>) {
    if v in l then l else l + [v]
  }

  /** The values recorded for attribute a: its list, or none while a has no entry. */
  function DomainOf(d: map<string, seq<string>>, a: string): seq<string> {
    if a in d then d[a] else []
  }

  /** The attribute map after recording that attribute a took value v. */
  function Noted(d: map<string, seq<string>>, a: string, v: string): map<string, seq<string>> {
    d[a := Ext1(DomainOf(d, a), v)]
  }

  /** The attribute map after recording attributes 1 .. k - 1 of a line's fields. */
  function Recorded(d: map<string, seq<string>>, fs: seq<string>, k: nat): map<string, seq<string>>
    requires 1 <= k <= |fs|
  {
    if k == 1 then d else Noted(Recorded(d, fs, k - 1), NatToString(k - 1), fs[k - 1])
  }

  /** The attribute map after one line: a line with no field stops before recording anything. */
  function RecordLine(d: map<string, seq<string>>, fs: seq<string>): map<string, seq<string>> {
    if fs == [] then d else Recorded(d, fs, |fs|)
  }

  /** The attribute map after recording every line in order. */
  function AccumulatedLines(d: map<string, seq<string>>, lines: seq<string>): map<string, seq<string>> {
    if lines == [] then d
    else RecordLine(AccumulatedLines(d, lines[..|lines| - 1]), Split(lines[|lines| - 1]))
  }

  /** The value a line gives attribute a: one value when the line has that field, none otherwise. */
  function ValueOf(fs: seq<string>, a: string): seq<string> {
    if a in ChoicesOf(fs) then [ChoicesOf(fs)[a]] else []
  }

  /** The values the lines give attribute a, line by line, duplicates included. */
  function Column(lines: seq<string>, a: string): seq<string> {
    if lines == [] then []
    else Column(lines[..|lines| - 1], a) + ValueOf(Split(lines[|lines| - 1]), a)
  }

  /** l extended by each value of vs in turn, by the contains / add pair. */
  function Extend(l: seq<string>, vs: seq<string>): seq<string> {
    if vs == [] then l else Ext1(Extend(l, vs[..|vs| - 1]), vs[|vs| - 1])
  }

  /** The position of the first occurrence of x in vs. */
  function FirstIndex(vs: seq<string>, x: string): (p: nat)
    requires x in vs
    ensures p < |vs| && vs[p] == x && x !in vs[..p]
  {
    var init := vs[..|vs| - 1];
    if x in init then
      var p := FirstIndex(init, x);
      assert vs[..p] == init[..p];
      p
    else
      assert vs[..|vs| - 1] == init;
      |vs| - 1
  }

  /** Recording a line's attributes 1 .. k - 1 extends attribute a's list by the value those fields give it. */
  lemma {:induction false} RecordedIsExt(d: map<string, seq<string>>, fs: seq<string>, k: nat, a: string)
    requires 1 <= k <= |fs|
    ensures DomainOf(Recorded(d, fs, k), a) ==
              if a in ChoicesUpTo(fs, k) then Ext1(DomainOf(d, a), ChoicesUpTo(fs, k)[a]) else DomainOf(d, a)
    ensures a in Recorded(d, fs, k) <==> a in d || a in ChoicesUpTo(fs, k)
  {
    if k > 1 {
      RecordedIsExt(d, fs, k - 1, a);
      if a == NatToString(k - 1) {
        NewKeyIsFresh(fs, k - 1);
      }
    }
  }

  /** Recording a line extends attribute a's list by the value the line gives it. */
  lemma {:induction false} RecordLineIsExtend(d: map<string, seq<string>>, fs: seq<string>, a: string)
    ensures DomainOf(RecordLine(d, fs), a) == Extend(DomainOf(d, a), ValueOf(fs, a))
    ensures a in RecordLine(d, fs) <==> a in d || ValueOf(fs, a) != []
  {
    if fs != [] {
      RecordedIsExt(d, fs, |fs|, a);
    }
  }

  /** Extending by vs and then by ws is extending by vs + ws. */
  lemma {:induction false} ExtendAppend(l: seq<string>, vs: seq<string>, ws: seq<string>)
    ensures Extend(Extend(l, vs), ws) == Extend(l, vs + ws)
  {
    if ws == [] {
      assert vs + ws == vs;
    } else {
      ExtendAppend(l, vs, ws[..|ws| - 1]);
      assert (vs + ws)[..|vs + ws| - 1] == vs + ws[..|ws| - 1];
    }
  }

  /**
   * After reading the lines, attribute a's list is its list before,
   * extended by every value the lines give a, in order; a has an entry
   * exactly when it had one before or some line gives it a value.
   */
  lemma {:induction false} AccumulatedIsExtend(d: map<string, seq<string>>, lines: seq<string>, a: string)
    ensures DomainOf(AccumulatedLines(d, lines), a) == Extend(DomainOf(d, a), Column(lines, a))
    ensures a in AccumulatedLines(d, lines) <==> a in d || Column(lines, a) != []
  {
    if lines != [] {
      var init := lines[..|lines| - 1];
      AccumulatedIsExtend(d, init, a);
      RecordLineIsExtend(AccumulatedLines(d, init), Split(lines[|lines| - 1]), a);
      ExtendAppend(DomainOf(d, a), Column(init, a), ValueOf(Split(lines[|lines| - 1]), a));
    }
  }

  /**
   * Extending a list keeps it as a prefix, adds exactly the values of vs it
   * lacked, each once, and keeps a list without duplicates without
   * duplicates.
   */
  lemma {:induction false} ExtendAddsMissingValues(l: seq<string>, vs: seq<string>)
    ensures |l| <= |Extend(l, vs)| && Extend(l, vs)[..|l|] == l
    ensures forall x :: x in Extend(l, vs) <==> x in l || x in vs
    ensures Distinct(l) ==> Distinct(Extend(l, vs))
    ensures forall i :: |l| <= i < |Extend(l, vs)| ==> Extend(l, vs)[i] !in l && Extend(l, vs)[i] in vs
  {
    if vs != [] {
      var init := vs[..|vs| - 1];
      ExtendAddsMissingValues(l, init);
      var e := Extend(l, init);
      assert vs == init + [vs[|vs| - 1]];
      if vs[|vs| - 1] !in e {
        assert (e + [vs[|vs| - 1]])[..|l|] == e[..|l|];
      }
    }
  }

  /** The values extending adds come in the order of their first appearance in vs. */
  lemma {:induction false} ExtendAddsInFirstAppearanceOrder(l: seq<string>, vs: seq<string>)
    ensures forall i :: |l| <= i < |Extend(l, vs)| ==> Extend(l, vs)[i] in vs
    ensures forall i, j :: |l| <= i < j < |Extend(l, vs)| ==>
              FirstIndex(vs, Extend(l, vs)[i]) < FirstIndex(vs, Extend(l, vs)[j])
  {
    ExtendAddsMissingValues(l, vs);
    if vs != [] {
      var init := vs[..|vs| - 1];
      var w := vs[|vs| - 1];
      ExtendAddsInFirstAppearanceOrder(l, init);
      ExtendAddsMissingValues(l, init);
      var e := Extend(l, init);
      forall i | |l| <= i < |e| ensures FirstIndex(vs, e[i]) == FirstIndex(init, e[i]) {
        assert e[i] in init;
      }
      if w !in e {
        assert w !in init;
        assert FirstIndex(vs, w) == |vs| - 1;
      }
    }
  }

  /** Every value a line gives attribute a is in the lines' column for a. */
  lemma {:induction false} ColumnHasLineValue(lines: seq<string>, k: nat, a: string)
    requires k < |lines| && a in ChoicesOf(Split(lines[k]))
    ensures ChoicesOf(Split(lines[k]))[a] in Column(lines, a)
  {
    var init := lines[..|lines| - 1];
    if k < |lines| - 1 {
      assert init[k] == lines[k];
      ColumnHasLineValue(init, k, a);
    }
  }

  /**
   * After reading, every field i >= 1 of every line is in the list of the
   * attribute String.valueOf(i): the domains cover every value a sample holds.
   */
  lemma {:induction false} ReadValuesAreInDomains(d: map<string, seq<string>>, lines: seq<string>, k: nat, i: nat)
    requires k < |lines| && 1 <= i < |Split(lines[k])|
    ensures NatToString(i) in AccumulatedLines(d, lines)
    ensures Split(lines[k])[i] in AccumulatedLines(d, lines)[NatToString(i)]
  {
    var fs := Split(lines[k]);
    var a := NatToString(i);
    ChoicesOfIndexed(fs);
    ColumnHasLineValue(lines, k, a);
    AccumulatedIsExtend(d, lines, a);
    ExtendAddsMissingValues(DomainOf(d, a), Column(lines, a));
  }

  /** Lists that start without duplicates stay without duplicates, whatever the lines hold. */
  lemma {:induction false} DomainsStayDistinct(d: map<string, seq<string>>, lines: seq<string>)
    requires forall a :: a in d ==> Distinct(d[a])
    ensures forall a :: a in AccumulatedLines(d, lines) ==> Distinct(AccumulatedLines(d, lines)[a])
  {
    forall a | a in AccumulatedLines(d, lines) ensures Distinct(AccumulatedLines(d, lines)[a]) {
      AccumulatedIsExtend(d, lines, a);
      ExtendAddsMissingValues(DomainOf(d, a), Column(lines, a));
    }
  }

  // ---------------------------------------------------------------- readData

  /** The caller's Map<String, List<String>> of attribute values, which readData fills in place. */
  class AttributeMap {
    var domains: map<string, seq<string>>

    constructor (domains: map<string, seq<string>>)
      ensures this.domains == domains
    {
      this.domains := domains;
    }

    /** Gives attr an empty list if it has none, then adds value to it unless it is there. */
    method Note(attr: string, value: string)
      modifies this
      ensures domains == Noted(old(domains), attr, value)
      ensures attr in domains && value in domains[attr]
    {
      if attr !in domains {
        domains := domains[attr := []];
      }
      if value !in domains[attr] {
        domains := domains[attr := domains[attr] + [value]];
      }
    }
  }

  /** The attribute map after the first k + 1 lines is the map after k lines with line k recorded. */
  lemma {:induction false} AccumulatedStep(d: map<string, seq<string>>, lines: seq<string>, k: nat)
    requires k < |lines|
    ensures AccumulatedLines(d, lines[..k + 1]) == RecordLine(AccumulatedLines(d, lines[..k]), Split(lines[k]))
  {
    assert lines[..k + 1][..k] == lines[..k];
  }

  /**
   * The body of readData's loop for one line with at least one field: the
   * sample of the fields, with every attribute value recorded in attrs.
   */
  method ReadLine(lineSplit: seq<string>, attrs: AttributeMap) returns (sample: Sample)
    requires lineSplit != []
    modifies attrs
    ensures sample == SampleOf(lineSplit)
    ensures attrs.domains == RecordLine(old(attrs.domains), lineSplit)
  {
    var decision := lineSplit[0];
    var choices: map<string, string> := map[];
    for i := 1 to |lineSplit|
      invariant choices == ChoicesUpTo(lineSplit, i)
      invariant attrs.domains == Recorded(old(attrs.domains), lineSplit, i)
    {
      var attr := NatToString(i);
      var value := lineSplit[i];
      choices := choices[attr := value];
      attrs.Note(attr, value);
    }
    sample := Sample(choices, decision);
  }

  /** Every line's split has at least one field. */
  predicate AllParse(lines: seq<string>) {
    forall k :: 0 <= k < |lines| ==> Split(lines[k]) != []
  }

  /** The samples of lines that all parse, in order. */
  function SamplesOf(lines: seq<string>): (samples: seq<Sample>)
    requires AllParse(lines)
  {
    if lines == [] then []
    else SamplesOf(lines[..|lines| - 1]) + [SampleOf(Split(lines[|lines| - 1]))]
  }

  /** Sample k of SamplesOf is the sample of line k. */
  lemma {:induction false} SamplesOfIndexed(lines: seq<string>)
    requires AllParse(lines)
    ensures |SamplesOf(lines)| == |lines|
    ensures forall k :: 0 <= k < |lines| ==> SamplesOf(lines)[k] == SampleOf(Split(lines[k]))
  {
    if lines != [] {
      var init := lines[..|lines| - 1];
      SamplesOfIndexed(init);
    }
  }

  /** One more line that parses keeps the prefix parsing and adds its sample. */
  lemma {:induction false} ParseStep(lines: seq<string>, k: nat)
    requires k < |lines| && AllParse(lines[..k]) && Split(lines[k]) != []
    ensures AllParse(lines[..k + 1])
    ensures SamplesOf(lines[..k + 1]) == SamplesOf(lines[..k]) + [SampleOf(Split(lines[k]))]
  {
    assert lines[..k + 1][..k] == lines[..k];
  }

  /**
   * readData: every line becomes the sample of its split(",") fields, and
   * every attribute value is recorded in attrs. A line whose split has no
   * field (a non-empty line of commas only) makes field 0 out of range: the
   * read stops there with Failure(k) for that line k, after attrs has taken
   * every earlier line's values. On success the samples are the lines'
   * samples in order, and attrs holds the old lists extended by every line.
   */
  method ReadData(lines: seq<string>, attrs: AttributeMap) returns (result: Result<seq<Sample>, nat>)
    modifies attrs
    ensures result.Success? <==> AllParse(lines)
    ensures result.Success? ==>
              && result.value == SamplesOf(lines)
              && attrs.domains == AccumulatedLines(old(attrs.domains), lines)
    ensures result.Failure? ==>
              && result.error < |lines| && Split(lines[result.error]) == []
              && AllParse(lines[..result.error])
              && attrs.domains == AccumulatedLines(old(attrs.domains), lines[..result.error])
  {
    var samples: seq<Sample> := [];
    for k := 0 to |lines|
      invariant AllParse(lines[..k]) && samples == SamplesOf(lines[..k])
      invariant attrs.domains == AccumulatedLines(old(attrs.domains), lines[..k])
    {
      var lineSplit := Split(lines[k]);
      if |lineSplit| == 0 {
        return Failure(k);
      }
      AccumulatedStep(old(attrs.domains), lines, k);
      ParseStep(lines, k);
      var sample := ReadLine(lineSplit, attrs);
      samples := samples + [sample];
    }
    assert lines[..|lines|] == lines;
    result := Success(samples);
  }
}

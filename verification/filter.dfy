/** `Filter`: replaces every `${name}` placeholder in a text by a value,
    after turning the value's backslashes into forward slashes (Windows
    paths become usable inside JSON and JavaScript). */
module Filters {
  import opened Strings

  /** A filter: the placeholder name and the value already rewritten. */
  datatype Filter = Filter(name: string, value: string)

  /** `String.format("\\$\\{%s\\}", name)`, matched literally. */
  function Placeholder(name: string): (r: string)
    ensures |r| == |name| + 3
    ensures r[..2] == "${" && r[2..|r| - 1] == name && r[|r| - 1] == '}'
  {
    "${" + name + "}"
  }

  /** `new Filter(placeholder, value)`. */
  function MakeFilter(name: string, value: string): (f: Filter)
    ensures f.name == name
    ensures |f.value| == |value| && '\\' !in f.value
    ensures forall i :: 0 <= i < |value| && value[i] != '\\' ==> f.value[i] == value[i]
  {
    ReplaceCharRemoves(value, '\\', '/');
    Filter(name, ReplaceChar(value, '\\', '/'))
  }

  /** A value without backslashes is kept as given. */
  lemma MakeFilterKeepsPlainValue(name: string, value: string)
    requires '\\' !in value
    ensures MakeFilter(name, value) == Filter(name, value)
  {
    var f := MakeFilter(name, value);
    assert f.value == value;
  }

  /** `filter(text)`: every occurrence of the placeholder replaced by the
      value; text without the placeholder is returned unchanged. */
  function ApplyFilter(f: Filter, text: string): (r: string)
    ensures !Contains(text, Placeholder(f.name)) ==> r == text
  {
    var p := Placeholder(f.name);
    assert !Contains(text, p) ==> ReplaceAll(text, p, f.value) == text by {
      if !Contains(text, p) {
        ReplaceAllNoOccurrence(text, p, f.value);
      }
    }
    ReplaceAll(text, p, f.value)
  }

  /** Text with no `$` at all cannot hold a placeholder, so the bare name is
      never touched. */
  lemma FilterWithoutDollar(f: Filter, text: string)
    requires '$' !in text
    ensures ApplyFilter(f, text) == text
  {
    var p := Placeholder(f.name);
    assert text[..|text|] == text;
    NoFirstCharNoOccurrence(text, p, |text|);
  }

  /** The first placeholder is replaced by the value and filtering goes on
      after it: every occurrence, left to right. */
  lemma FilterFirstPlaceholder(f: Filter, text: string, k: nat)
    requires OccursAt(text, Placeholder(f.name), k)
    requires NoOccurrenceBefore(text, Placeholder(f.name), k)
    ensures ApplyFilter(f, text)
         == text[..k] + f.value + ApplyFilter(f, text[k + |Placeholder(f.name)|..])
  {
    ReplaceAllFirstOccurrence(text, Placeholder(f.name), f.value, k);
  }

  /** A placeholder after plain text is replaced, and nothing else is
      ("This is ${placeholder}" becomes "This is Sparta!"). */
  lemma FilterTrailingPlaceholder(f: Filter, prefix: string)
    requires '$' !in prefix
    ensures ApplyFilter(f, prefix + Placeholder(f.name)) == prefix + f.value
  {
    var p := Placeholder(f.name);
    var text := prefix + p;
    var k := |prefix|;
    assert text[k..k + |p|] == p;
    assert text[..k] == prefix;
    NoFirstCharNoOccurrence(text, p, k);
    FilterFirstPlaceholder(f, text, k);
    assert text[k + |p|..] == [];
    FilterWithoutDollar(f, []);
  }

  /** A Windows path value is written with forward slashes. */
  lemma FilterSlashesExample()
    ensures MakeFilter("placeholder", "c:\\windows\\is\\wierd").value == "c:/windows/is/wierd"
  {
    var v := "c:\\windows\\is\\wierd";
    assert MakeFilter("placeholder", v).value == ReplaceChar(v, '\\', '/');
  }
}

/**
 * The fixed table of encoded renditions: every resolution class crossed with
 * every output format, and the object-storage key of one rendition.
 */
module Variants {
  import opened Wrappers
  import Text

  /** A `[width, height]` resize box; the importer leaves the width unset so it scales. */
  datatype Resize = Resize(width: Option<nat>, height: nat)

  /** One entry of the `resolutions` object: its key and its box (`null` for no resize). */
  datatype ResolutionClass = ResolutionClass(name: string, resize: Option<Resize>)

  datatype Variant = Variant(format: string, name: string, resolution: Option<Resize>)

  /** The `resolutions` object, in its insertion order. */
  const Resolutions: seq<ResolutionClass> := [
    ResolutionClass("hd", Some(Resize(None, 720))),
    ResolutionClass("fhd", Some(Resize(None, 1080))),
    ResolutionClass("qhd", Some(Resize(None, 1440))),
    ResolutionClass("original", None)
  ]

  const Formats: seq<string> := ["webp", "avif"]

  /** `formats.map(...)` for one resolution class. */
  function PerClass(c: ResolutionClass, formats: seq<string>): (r: seq<Variant>)
    ensures |r| == |formats|
    ensures forall j :: 0 <= j < |r| ==> r[j] == Variant(formats[j], c.name, c.resize)
  {
    seq(|formats|, j requires 0 <= j < |formats| => Variant(formats[j], c.name, c.resize))
  }

  /** `Object.entries(resolutions).map(...).flat()`: class-major, format-minor. */
  function Expand(classes: seq<ResolutionClass>, formats: seq<string>): seq<Variant> {
    if |classes| == 0 then [] else PerClass(classes[0], formats) + Expand(classes[1..], formats)
  }

  function AllVariants(): seq<Variant> {
    Expand(Resolutions, Formats)
  }

  /**
   * The expansion has one entry per (class, format) pair, and the pair made of
   * class `c` and format `j` sits at position `c * |formats| + j`.
   */
  lemma {:induction false} ExpandAt(classes: seq<ResolutionClass>, formats: seq<string>, c: nat, j: nat)
    requires c < |classes| && j < |formats|
    ensures |Expand(classes, formats)| == |classes| * |formats|
    ensures c * |formats| + j < |Expand(classes, formats)|
    ensures Expand(classes, formats)[c * |formats| + j]
      == Variant(formats[j], classes[c].name, classes[c].resize)
  {
    var f := |formats|;
    var head := PerClass(classes[0], formats);
    assert |classes| * f == f + (|classes| - 1) * f;
    if c == 0 {
      if |classes| == 1 {
        assert Expand(classes[1..], formats) == [];
      } else {
        ExpandAt(classes[1..], formats, 0, j);
      }
    } else {
      ExpandAt(classes[1..], formats, c - 1, j);
      assert c * f + j == f + ((c - 1) * f + j);
      assert classes[1..][c - 1] == classes[c];
    }
  }

  /**
   * The table has 4 x 2 = 8 entries, hd, fhd, qhd, original in that order,
   * webp before avif within each class; the three resized classes carry a
   * height-only box of 720, 1080 and 1440 and original carries none.
   */
  lemma VariantTable()
    ensures AllVariants() == [
      Variant("webp", "hd", Some(Resize(None, 720))),
      Variant("avif", "hd", Some(Resize(None, 720))),
      Variant("webp", "fhd", Some(Resize(None, 1080))),
      Variant("avif", "fhd", Some(Resize(None, 1080))),
      Variant("webp", "qhd", Some(Resize(None, 1440))),
      Variant("avif", "qhd", Some(Resize(None, 1440))),
      Variant("webp", "original", None),
      Variant("avif", "original", None)
    ]
  {
    ExpandAt(Resolutions, Formats, 0, 0);
    ExpandAt(Resolutions, Formats, 0, 1);
    ExpandAt(Resolutions, Formats, 1, 0);
    ExpandAt(Resolutions, Formats, 1, 1);
    ExpandAt(Resolutions, Formats, 2, 0);
    ExpandAt(Resolutions, Formats, 2, 1);
    ExpandAt(Resolutions, Formats, 3, 0);
    ExpandAt(Resolutions, Formats, 3, 1);
  }

  /** No (class, format) pair occurs twice. */
  lemma VariantsDistinct()
    ensures forall i, j :: 0 <= i < j < |AllVariants()| ==>
      (AllVariants()[i].name, AllVariants()[i].format) != (AllVariants()[j].name, AllVariants()[j].format)
  {
    VariantTable();
  }

  /** The storage key `/img/{class}/{id}.{format}` of one rendition. */
  function StorageKey(v: Variant, id: string): (k: string)
    ensures |k| == 7 + |v.name| + |id| + |v.format|
    ensures Text.StartsWith(k, "/img/" + v.name + "/")
    ensures Text.EndsWith(k, "/" + id + "." + v.format)
  {
    "/img/" + v.name + "/" + id + "." + v.format
  }

  /** The key list the deletion script writes out by hand for one id. */
  function DeletionKeys(id: string): seq<string> {
    [
      "/img/hd/" + id + ".avif",
      "/img/hd/" + id + ".webp",
      "/img/fhd/" + id + ".avif",
      "/img/fhd/" + id + ".webp",
      "/img/qhd/" + id + ".avif",
      "/img/qhd/" + id + ".webp",
      "/img/original/" + id + ".avif",
      "/img/original/" + id + ".webp"
    ]
  }

  /** A key spelled with its directory and extension written out as literals. */
  lemma KeySpelling(v: Variant, id: string, dir: string, ext: string)
    requires dir == "/img/" + v.name + "/" && ext == "." + v.format
    ensures StorageKey(v, id) == dir + id + ext
  {
  }

  /**
   * The deletion script's keys are exactly the keys of the variant table, each
   * class listing avif before webp where the table lists webp first.
   */
  lemma DeletionKeysMatchVariants(id: string)
    ensures var v := AllVariants();
      DeletionKeys(id) == [
        StorageKey(v[1], id), StorageKey(v[0], id),
        StorageKey(v[3], id), StorageKey(v[2], id),
        StorageKey(v[5], id), StorageKey(v[4], id),
        StorageKey(v[7], id), StorageKey(v[6], id)
      ]
  {
    VariantTable();
    var v := AllVariants();
    KeySpelling(v[0], id, "/img/hd/", ".webp");
    KeySpelling(v[1], id, "/img/hd/", ".avif");
    KeySpelling(v[2], id, "/img/fhd/", ".webp");
    KeySpelling(v[3], id, "/img/fhd/", ".avif");
    KeySpelling(v[4], id, "/img/qhd/", ".webp");
    KeySpelling(v[5], id, "/img/qhd/", ".avif");
    KeySpelling(v[6], id, "/img/original/", ".webp");
    KeySpelling(v[7], id, "/img/original/", ".avif");
  }

  /** Keys whose class initials or format endings differ are different keys. */
  lemma KeysApart(v: Variant, w: Variant, id: string)
    requires |v.name| > 0 && |w.name| > 0 && |v.format| == 4 && |w.format| == 4
    requires v.name[0] != w.name[0] || v.format[3] != w.format[3]
    ensures StorageKey(v, id) != StorageKey(w, id)
  {
    var kv, kw := StorageKey(v, id), StorageKey(w, id);
    assert kv[5] == v.name[0] && kw[5] == w.name[0];
    assert kv[|kv| - 1] == v.format[3] && kw[|kw| - 1] == w.format[3];
  }

  /** The eight renditions of one image land under eight different keys. */
  lemma StorageKeysDistinct(id: string)
    ensures forall i, j :: 0 <= i < j < |AllVariants()| ==>
      StorageKey(AllVariants()[i], id) != StorageKey(AllVariants()[j], id)
  {
    VariantTable();
    var v := AllVariants();
    forall i, j | 0 <= i < j < 8
      ensures StorageKey(v[i], id) != StorageKey(v[j], id)
    {
      KeysApart(v[i], v[j], id);
    }
  }

  /** A key determines the id it was built from. */
  lemma {:induction false} StorageKeyInjective(v: Variant, a: string, b: string)
    requires StorageKey(v, a) == StorageKey(v, b)
    ensures a == b
  {
    var ka, kb := StorageKey(v, a), StorageKey(v, b);
    var start := 6 + |v.name|;
    assert |a| == |b|;
    assert ka[start..start + |a|] == a;
    assert kb[start..start + |b|] == b;
  }
}

/** Docker image references (`receiver/model/image.go`): a parser with a
    registry-domain heuristic and the matching formatter. */
module ImageRef {
  import opened Wrappers
  import opened GoStrings

  /** A first segment ending in this is taken for an ECR registry. */
  const EcrDomainSuffix: string := "amazonaws.com"

  datatype Image = Image(registry: string, name: string, tag: string)

  /** `NewImage`: the three parts are stored as given. */
  function NewImage(registry: string, name: string, tag: string): (img: Image)
    ensures img.registry == registry && img.name == name && img.tag == tag
  {
    Image(registry, name, tag)
  }

  /** `(*Image).String`: no special case for empty parts, so an image
      without a registry still prints a leading `/` and one without a tag a
      trailing `:`. Each part sits at a fixed place, which is what lets
      `FromString` read it back (see `RoundTrip`). */
  function ToString(img: Image): (r: string)
    ensures |r| == |img.registry| + |img.name| + |img.tag| + 2
  {
    img.registry + "/" + img.name + ":" + img.tag
  }

  /** Where each part of the printed form sits. */
  lemma ToStringLayout(img: Image)
    ensures var r := ToString(img);
      r[..|img.registry|] == img.registry && r[|img.registry|] == '/'
      && r[|img.registry| + 1..|r| - |img.tag| - 1] == img.name
      && r[|r| - |img.tag| - 1] == ':' && r[|r| - |img.tag|..] == img.tag
  {
    var r := ToString(img);
    assert r == img.registry + ("/" + img.name + ":" + img.tag);
    assert r == (img.registry + "/" + img.name) + (":" + img.tag);
  }

  /** The text before the first `:`, or all of `s`. */
  function BeforeColon(s: string): string
  {
    SplitN2(s, ':')[0]
  }

  /** `ImageFromString`. Two or more `:` are an error. The tag is what
      follows the single `:`, if any. Of the text before it: without `/` it is
      all name; with exactly one `/` its first segment is the registry only
      when it ends in the ECR suffix (otherwise everything is the name); with
      more, the first segment is the registry and the rest is the name. */
  function FromString(s: string): (r: Result<Image>)
    ensures r.Err? <==> multiset(s)[':'] >= 2
    ensures r.Err? ==> r.msg == "Invalid image string. " + s
    ensures r.Ok? && ':' !in s ==> r.value.tag == ""
    ensures r.Ok? && ':' in s ==> s == BeforeColon(s) + ":" + r.value.tag && ':' !in r.value.tag
    ensures r.Ok? && multiset(BeforeColon(s))['/'] == 0 ==>
      r.value.registry == "" && r.value.name == BeforeColon(s)
    ensures r.Ok? && multiset(BeforeColon(s))['/'] == 1 ==>
      if HasSuffix(SplitN2(BeforeColon(s), '/')[0], EcrDomainSuffix) then
        r.value.registry + "/" + r.value.name == BeforeColon(s) && '/' !in r.value.registry
      else
        r.value.registry == "" && r.value.name == BeforeColon(s)
    ensures r.Ok? && multiset(BeforeColon(s))['/'] >= 2 ==>
      r.value.registry + "/" + r.value.name == BeforeColon(s) && '/' !in r.value.registry
  {
    var ss := Split(s, ':');
    SplitCount(s, ':');
    if |ss| >= 3 then Err("Invalid image string. " + s)
    else
      assert ss[0] == BeforeColon(s) by {
        if ':' in s { SplitHeadTail(s, ':'); }
      }
      assert |ss| == 2 ==> ss[1] == SplitN2(s, ':')[1] by {
        if |ss| == 2 {
          SplitHeadTail(s, ':');
          assert ss[1..] == [ss[1]];
        }
      }
      var tag := if |ss| == 2 then ss[1] else "";
      var ss2 := Split(ss[0], '/');
      SplitCount(ss[0], '/');
      if |ss2| == 1 then Ok(Image("", ss2[0], tag))
      else
        SplitHeadTail(ss[0], '/');
        if |ss2| == 2 then
          assert ss2[1..] == [ss2[1]];
          if HasSuffix(ss2[0], EcrDomainSuffix) then Ok(Image(ss2[0], ss2[1], tag))
          else Ok(Image("", ss[0], tag))
        else Ok(Image(ss2[0], SplitN2(ss[0], '/')[1], tag))
  }

  /** Formatting then parsing gives the image back when no part holds a `:`,
      the registry is a single non-empty segment, and the registry either
      looks like ECR or the name itself holds a `/`. */
  lemma RoundTrip(img: Image)
    requires ':' !in img.registry && ':' !in img.name && ':' !in img.tag
    requires img.registry != "" && '/' !in img.registry
    requires HasSuffix(img.registry, EcrDomainSuffix) || '/' in img.name
    ensures FromString(ToString(img)) == Ok(img)
  {
    var s := ToString(img);
    var h := img.registry + "/" + img.name;
    assert s == h + [':'] + img.tag;
    assert ':' !in h;
    FirstSplitUnique(h, img.tag, ':');
    assert BeforeColon(s) == h;
    assert multiset(s)[':'] == 1 by {
      assert multiset(s) == multiset(img.registry) + multiset("/") + multiset(img.name)
        + multiset(":") + multiset(img.tag);
    }
    assert h == img.registry + ['/'] + img.name;
    FirstSplitUnique(img.registry, img.name, '/');
    assert SplitN2(h, '/')[0] == img.registry;
    var r := FromString(s).value;
    assert multiset(h)['/'] >= 1 by {
      assert multiset(h) == multiset(img.registry) + multiset("/") + multiset(img.name);
    }
    FirstSplitUnique(r.registry, r.name, '/');
    if multiset(h)['/'] == 1 {
      assert '/' !in img.name by {
        assert multiset(h) == multiset(img.registry) + multiset("/") + multiset(img.name);
      }
    }
  }

  /** A string with two or more colons, such as a registry with a port plus a
      tag, is refused. */
  lemma TwoColonsRejected(a: string, b: string, c: string)
    ensures FromString(a + ":" + b + ":" + c).Err?
  {
    var s := a + ":" + b + ":" + c;
    assert multiset(s) == multiset(a) + multiset(":") + multiset(b) + multiset(":") + multiset(c);
  }
}

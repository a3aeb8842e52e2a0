/**
 * The view element factory: turns a parsed token tree into an element tree.
 * Compiling a token to text and fetching a view component from the
 * dependency container are calls into code outside this model; the first is
 * passed in as functions, the second is represented by the class name that
 * would be requested.
 */
module ElementFactory {
  import opened Wrappers

  /** The token types the factory distinguishes; every other type is `OtherType`. */
  datatype TokenType =
    | OpenTagEnd
    | AttributeName
    | AttributeValue
    | SelfClosingTagEnd
    | Content
    | Comment
    | Php
    | OtherType(name: string)

  datatype HtmlAttribute = HtmlAttribute(name: string, value: string)

  /** A node of the parsed template: an HTML tag, text, a comment or PHP code, with its children. */
  datatype Token = Token(
    tokenType: TokenType,
    tag: Option<string>,
    htmlAttributes: seq<HtmlAttribute>,
    phpAttributes: seq<string>,
    children: seq<Token>,
    source: string)

  /** An attribute of an element: an HTML attribute as parsed, or PHP code named by its position. */
  datatype Attribute = Html(attribute: HtmlAttribute) | PhpAttribute(name: string, content: string)

  /** What the view configuration registers for a tag: a class name or a ready component. */
  datatype ComponentEntry = ComponentClass(className: string) | ComponentInstance(instance: string)

  /**
   * The component a view-component element renders with: a dynamic one built
   * from the token, the instance the container returns for a class name, or
   * a ready instance from the configuration.
   */
  datatype Component = DynamicComponent(token: Token) | FromContainer(className: string) | Ready(instance: string)

  datatype Element =
    | TextElement(text: string)
    | RawElement(token: Token, rawTag: Option<string>, content: string, attributes: seq<Attribute>)
    | ViewComponentElement(token: Token, component: Component, attributes: seq<Attribute>, children: seq<Element>)
    | TemplateElement(token: Token, attributes: seq<Attribute>, children: seq<Element>)
    | SlotElement(token: Token, name: string, attributes: seq<Attribute>, children: seq<Element>)
    | GenericElement(token: Token, genericTag: string, attributes: seq<Attribute>, children: seq<Element>)
  {
    /** Elements that receive the token's children; text and raw elements do not. */
    predicate HasChildren() {
      !TextElement? && !RawElement?
    }
  }

  /** The foreign compilation of a token, and of its children, to template text. */
  datatype Compiler = Compiler(compile: Token -> string, compileChildren: Token -> string)

  /** The name a slot gets when its tag has no `name` attribute. */
  const DefaultSlotName := "default"

  /** PHP truthiness of a nullable string: null, `''` and `'0'` are false. */
  predicate Truthy(s: Option<string>) {
    s.Some? && s.value != "" && s.value != "0"
  }

  /** The characters PHP's `trim` strips by default. */
  predicate IsTrimmed(c: char) {
    c == ' ' || c == '\t' || c == '\n' || c == '\r' || c == '\0' || c == '\U{0B}'
  }

  function TrimLeft(s: string): (r: string)
    ensures |r| <= |s| && r == s[|s| - |r|..]
    ensures forall k :: 0 <= k < |s| - |r| ==> IsTrimmed(s[k])
    ensures r == [] || !IsTrimmed(r[0])
  {
    if |s| > 0 && IsTrimmed(s[0]) then TrimLeft(s[1..]) else s
  }

  function TrimRight(s: string): (r: string)
    ensures |r| <= |s| && r == s[..|r|]
    ensures forall k :: |r| <= k < |s| ==> IsTrimmed(s[k])
    ensures r == [] || !IsTrimmed(r[|r| - 1])
  {
    if |s| > 0 && IsTrimmed(s[|s| - 1]) then TrimRight(s[..|s| - 1]) else s
  }

  /** PHP's `trim` with its default character list. */
  function Trim(s: string): (r: string)
    ensures |r| <= |s|
    ensures r == [] || (!IsTrimmed(r[0]) && !IsTrimmed(r[|r| - 1]))
    ensures (forall k :: 0 <= k < |s| ==> !IsTrimmed(s[k])) ==> r == s
  {
    TrimRight(TrimLeft(s))
  }

  /** A text trims to nothing exactly when every character of it is one `trim` strips. */
  lemma TrimEmptyIff(s: string)
    ensures Trim(s) == "" <==> forall k :: 0 <= k < |s| ==> IsTrimmed(s[k])
  {
    var l := TrimLeft(s);
    if !(forall k :: 0 <= k < |s| ==> IsTrimmed(s[k])) {
      var k :| 0 <= k < |s| && !IsTrimmed(s[k]);
      assert k >= |s| - |l|;
      assert l[k - (|s| - |l|)] == s[k];
      assert TrimRight(l) != [];
    }
  }

  /** The value of the first HTML attribute called `name`, or null. */
  function GetAttribute(t: Token, name: string): (r: Option<string>)
    ensures r.Some? <==> exists k :: 0 <= k < |t.htmlAttributes| && t.htmlAttributes[k].name == name
  {
    FirstValue(t.htmlAttributes, name)
  }

  function FirstValue(attrs: seq<HtmlAttribute>, name: string): (r: Option<string>)
    ensures r.Some? <==> exists k :: 0 <= k < |attrs| && attrs[k].name == name
  {
    if |attrs| == 0 then None
    else if attrs[0].name == name then Some(attrs[0].value)
    else
      var rest := FirstValue(attrs[1..], name);
      assert forall k :: 1 <= k < |attrs| ==> attrs[k] == attrs[1..][k - 1];
      rest
  }

  function DigitChar(d: nat): (c: char)
    requires d < 10
    ensures '0' <= c <= '9' && c as int - '0' as int == d
  {
    "0123456789"[d]
  }

  /** `(string) $n` for a non-negative integer. */
  function NatToString(n: nat): (s: string)
    ensures |s| >= 1
    ensures forall k :: 0 <= k < |s| ==> '0' <= s[k] <= '9'
    decreases n
  {
    if n < 10 then [DigitChar(n)] else NatToString(n / 10) + [DigitChar(n % 10)]
  }

  /** Reads a string of decimal digits back as a number. */
  function ParseDigits(s: string): nat
    requires forall k :: 0 <= k < |s| ==> '0' <= s[k] <= '9'
  {
    if |s| == 0 then 0 else ParseDigits(s[..|s| - 1]) * 10 + (s[|s| - 1] as int - '0' as int)
  }

  /** The index names are decimal numerals that read back as the index, so distinct indices get distinct names. */
  lemma {:induction false} ParseNatToString(n: nat)
    ensures ParseDigits(NatToString(n)) == n
    decreases n
  {
    if n >= 10 {
      ParseNatToString(n / 10);
      var s := NatToString(n);
      assert s[..|s| - 1] == NatToString(n / 10);
    }
  }

  /** One PHP attribute per PHP code fragment of the token, named by its position. */
  function PhpAttributes(php: seq<string>): (r: seq<Attribute>)
    ensures |r| == |php|
    ensures forall j :: 0 <= j < |php| ==> r[j] == PhpAttribute(NatToString(j), php[j])
  {
    seq(|php|, j requires 0 <= j < |php| => PhpAttribute(NatToString(j), php[j]))
  }

  /** The element's attributes: the HTML attributes in order, then the PHP attributes. */
  function Attributes(t: Token): (r: seq<Attribute>)
    ensures |r| == |t.htmlAttributes| + |t.phpAttributes|
    ensures forall j :: 0 <= j < |t.htmlAttributes| ==> r[j] == Html(t.htmlAttributes[j])
    ensures forall j :: 0 <= j < |t.phpAttributes| ==>
              r[|t.htmlAttributes| + j] == PhpAttribute(NatToString(j), t.phpAttributes[j])
  {
    seq(|t.htmlAttributes|, j requires 0 <= j < |t.htmlAttributes| => Html(t.htmlAttributes[j]))
      + PhpAttributes(t.phpAttributes)
  }

  /** Token types that carry no element of their own. */
  predicate Skipped(tt: TokenType) {
    tt == OpenTagEnd || tt == AttributeName || tt == AttributeValue || tt == SelfClosingTagEnd
  }

  /** Tokens that become a raw element of their compiled text. */
  predicate IsRawToken(t: Token) {
    !Truthy(t.tag) || t.tokenType == Comment || t.tokenType == Php
  }

  /**
   * Whether `tag` names a view component: it has an entry, and the entry is
   * truthy (a class name `''` or `'0'` counts as no entry).
   */
  predicate Registered(components: map<string, ComponentEntry>, tag: string) {
    tag in components && (components[tag].ComponentClass? ==> Truthy(Some(components[tag].className)))
  }

  /**
   * The component for a tag registered as a view component: a dynamic one
   * when the token has a truthy `is` or `:is` attribute, otherwise the
   * registered one (a class name is resolved through the container).
   */
  function ComponentFor(entry: ComponentEntry, t: Token): (c: Component)
    ensures Truthy(GetAttribute(t, "is")) || Truthy(GetAttribute(t, ":is")) ==> c == DynamicComponent(t)
    ensures !(Truthy(GetAttribute(t, "is")) || Truthy(GetAttribute(t, ":is"))) ==>
              match entry
              case ComponentClass(name) => c == FromContainer(name)
              case ComponentInstance(inst) => c == Ready(inst)
  {
    if Truthy(GetAttribute(t, "is")) || Truthy(GetAttribute(t, ":is")) then DynamicComponent(t)
    else
      match entry
      case ComponentClass(name) => FromContainer(name)
      case ComponentInstance(inst) => Ready(inst)
  }

  /**
   * `make`: the element for a root token. It is null exactly for a
   * structural token or blank content; otherwise its children are the
   * token's children's elements, in order.
   */
  function Make(components: map<string, ComponentEntry>, compiler: Compiler, t: Token): (r: Option<Element>)
    ensures r.None? <==> Skipped(t.tokenType) || (t.tokenType == Content && Trim(compiler.compile(t)) == "")
    ensures r.Some? && r.value.HasChildren() ==> |r.value.children| <= |t.children|
  {
    MakeElement(components, compiler, t)
  }

  /** `makeElement`: the element for one token, or null when the token yields none. */
  function MakeElement(components: map<string, ComponentEntry>, compiler: Compiler, t: Token): (r: Option<Element>)
    ensures Skipped(t.tokenType) ==> r.None?
    ensures t.tokenType == Content ==>
              (r.None? <==> Trim(compiler.compile(t)) == "")
              && (r.Some? ==> r.value == TextElement(compiler.compile(t)))
    ensures !Skipped(t.tokenType) && t.tokenType != Content ==> r.Some?
    ensures r.Some? && r.value.HasChildren() ==> |r.value.children| <= |t.children|
    ensures r.Some? && r.value.HasChildren() ==> r.value.attributes == Attributes(t)
    decreases t, 1, 0
  {
    if Skipped(t.tokenType) then None
    else if t.tokenType == Content then
      var text := compiler.compile(t);
      if Trim(text) == "" then None else Some(TextElement(text))
    else if IsRawToken(t) then
      Some(RawElement(t, None, compiler.compile(t), []))
    else
      var tag := t.tag.value;
      var attributes := Attributes(t);
      if tag == "code" || tag == "pre" then
        Some(RawElement(t, Some(tag), compiler.compileChildren(t), attributes))
      else
        var children := MakeChildren(components, compiler, t, 0);
        if Registered(components, tag) then
          Some(ViewComponentElement(t, ComponentFor(components[tag], t), attributes, children))
        else if tag == "x-template" then
          Some(TemplateElement(t, attributes, children))
        else if tag == "x-slot" then
          Some(SlotElement(t, GetAttribute(t, "name").GetOr(DefaultSlotName), attributes, children))
        else
          Some(GenericElement(t, tag, attributes, children))
  }

  /** The loop over the children from index `i`: each child's element, nulls dropped, order kept. */
  function MakeChildren(components: map<string, ComponentEntry>, compiler: Compiler, parent: Token, i: nat): (r: seq<Element>)
    requires i <= |parent.children|
    ensures |r| <= |parent.children| - i
    decreases parent, 0, |parent.children| - i
  {
    if i == |parent.children| then []
    else
      match MakeElement(components, compiler, parent.children[i])
      case None => MakeChildren(components, compiler, parent, i + 1)
      case Some(e) => [e] + MakeChildren(components, compiler, parent, i + 1)
  }

  /** The present values of a sequence of optional values, in order. */
  function Present<T>(os: seq<Option<T>>): (r: seq<T>)
    ensures |r| <= |os|
  {
    if |os| == 0 then []
    else if os[0].Some? then [os[0].value] + Present(os[1..])
    else Present(os[1..])
  }

  /** Each child token mapped to its element (or null), position by position. */
  function ChildResults(components: map<string, ComponentEntry>, compiler: Compiler, parent: Token): (r: seq<Option<Element>>)
    ensures |r| == |parent.children|
  {
    seq(|parent.children|, j requires 0 <= j < |parent.children| => MakeElement(components, compiler, parent.children[j]))
  }

  /** The children loop agrees with "map every child, then drop the nulls". */
  lemma {:induction false} ChildrenArePresentResults(components: map<string, ComponentEntry>, compiler: Compiler, parent: Token, i: nat)
    requires i <= |parent.children|
    ensures MakeChildren(components, compiler, parent, i) == Present(ChildResults(components, compiler, parent)[i..])
    decreases |parent.children| - i
  {
    var all := ChildResults(components, compiler, parent);
    if i < |parent.children| {
      ChildrenArePresentResults(components, compiler, parent, i + 1);
      assert all[i..][1..] == all[i + 1..];
      assert all[i..][0] == MakeElement(components, compiler, parent.children[i]);
    }
  }

  /** An element's children are exactly the non-null elements of its child tokens, in their original order. */
  lemma ElementChildren(components: map<string, ComponentEntry>, compiler: Compiler, t: Token)
    requires MakeElement(components, compiler, t).Some? && MakeElement(components, compiler, t).value.HasChildren()
    ensures MakeElement(components, compiler, t).value.children == Present(ChildResults(components, compiler, t))
  {
    ChildrenArePresentResults(components, compiler, t, 0);
    assert ChildResults(components, compiler, t)[0..] == ChildResults(components, compiler, t);
  }

  /** Tokens without a tag, comments and PHP blocks become a raw element of their compiled text, untagged and without attributes. */
  lemma RawTokens(components: map<string, ComponentEntry>, compiler: Compiler, t: Token)
    requires !Skipped(t.tokenType) && t.tokenType != Content && IsRawToken(t)
    ensures MakeElement(components, compiler, t) == Some(RawElement(t, None, compiler.compile(t), []))
  {
  }

  /** `code` and `pre` keep their children as compiled text, never as elements. */
  lemma CodeAndPreAreRaw(components: map<string, ComponentEntry>, compiler: Compiler, t: Token)
    requires !Skipped(t.tokenType) && t.tokenType != Content && !IsRawToken(t)
    requires t.tag.value == "code" || t.tag.value == "pre"
    ensures MakeElement(components, compiler, t) == Some(RawElement(t, t.tag, compiler.compileChildren(t), Attributes(t)))
  {
  }

  /** Tag dispatch for a tag that is neither raw nor `code`/`pre`: a registered view component wins over `x-template`, `x-slot` and plain elements. */
  lemma TagDispatch(components: map<string, ComponentEntry>, compiler: Compiler, t: Token)
    requires !Skipped(t.tokenType) && t.tokenType != Content && !IsRawToken(t)
    requires t.tag.value != "code" && t.tag.value != "pre"
    ensures var r := MakeElement(components, compiler, t).value;
            var tag := t.tag.value;
            && (Registered(components, tag) ==> r.ViewComponentElement? && r.component == ComponentFor(components[tag], t))
            && (!Registered(components, tag) && tag == "x-template" ==> r.TemplateElement?)
            && (!Registered(components, tag) && tag == "x-slot" ==>
                  r.SlotElement? && r.name == (if GetAttribute(t, "name").Some? then GetAttribute(t, "name").value else DefaultSlotName))
            && (!Registered(components, tag) && tag != "x-template" && tag != "x-slot" ==> r == GenericElement(t, tag, Attributes(t), r.children))
  {
  }
}

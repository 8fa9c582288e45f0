/** The blog index: posts paired with their cover images, a row of
    category buttons that filter them, and a filter toggle on small
    screens. */
module BlogGrid {
  import opened Base

  /** The category buttons, in order; "All" shows every post. */
  const Categories: seq<string> := ["All", "Design", "Inspiration", "Trends", "Sustainability", "Craftsmanship"]

  /** A cover image. */
  datatype BlogImage = BlogImage(url: string, alt: string, photographer: string, photographerUrl: string)

  /** A post as listed, before and after its image is attached; `image` is
      None when the image list has no entry at the post's index. */
  datatype BlogPostData = BlogPostData(id: int, title: string, excerpt: string, category: string,
                                       date: string, readTime: int, image: Option<BlogImage>)

  /** The fetch effect's `map`: post `i` gets image `i`, when there is one. */
  function WithImages(posts: seq<BlogPostData>, images: seq<BlogImage>): (r: seq<BlogPostData>)
    ensures |r| == |posts|
    ensures forall i :: 0 <= i < |posts| ==>
              r[i] == posts[i].(image := if i < |images| then Some(images[i]) else None)
  {
    seq(|posts|, i requires 0 <= i < |posts| =>
      posts[i].(image := if i < |images| then Some(images[i]) else None))
  }

  /** Attaching images keeps every post's own fields and their order. */
  lemma WithImagesKeepsPosts(posts: seq<BlogPostData>, images: seq<BlogImage>)
    ensures var r := WithImages(posts, images);
            forall i :: 0 <= i < |posts| ==>
              r[i].id == posts[i].id && r[i].title == posts[i].title && r[i].category == posts[i].category
  {
  }

  /** The filter's test for a selected category. */
  function InCategory(selected: string): BlogPostData -> bool
  {
    (p: BlogPostData) => p.category == selected
  }

  /** `filteredPosts`: every post under "All", otherwise the posts whose
      category is the selected one, in their order. */
  function FilteredPosts(selected: string, posts: seq<BlogPostData>): (shown: seq<BlogPostData>)
    ensures selected == "All" ==> shown == posts
    ensures selected != "All" ==> shown == Filter(posts, InCategory(selected))
  {
    if selected == "All" then posts else Filter(posts, InCategory(selected))
  }

  /** Under a category other than "All", a post is shown exactly when it
      belongs to that category, and the shown posts keep their order. */
  lemma FilteredPostsExact(selected: string, posts: seq<BlogPostData>)
    requires selected != "All"
    ensures forall p :: p in FilteredPosts(selected, posts) ==> p.category == selected
    ensures forall i :: 0 <= i < |posts| && posts[i].category == selected ==> posts[i] in FilteredPosts(selected, posts)
    ensures IsSubsequence(FilteredPosts(selected, posts), posts)
  {
    var shown := FilteredPosts(selected, posts);
    forall p | p in shown ensures p.category == selected {
      var k :| 0 <= k < |shown| && shown[k] == p;
    }
    FilterIsSubsequence(posts, InCategory(selected));
    FilterMembers(posts, InCategory(selected));
  }

  /** What the grid shows. */
  datatype GridView = Spinner | Cards(posts: seq<BlogPostData>)

  /** The grid's state. */
  class Grid {
    var selectedCategory: string
    var posts: seq<BlogPostData>
    var isLoading: bool
    var showFilters: bool

    /** "All" selected, no posts yet, loading, filters folded. */
    constructor()
      ensures selectedCategory == "All" && selectedCategory == Categories[0]
      ensures posts == [] && isLoading && !showFilters
    {
      selectedCategory := "All";
      posts := [];
      isLoading := true;
      showFilters := false;
    }

    /** The mount effect: the posts are paired with the images and loading
        ends. */
    method FetchPosts(blogPosts: seq<BlogPostData>, blogImages: seq<BlogImage>)
      modifies this
      ensures posts == WithImages(blogPosts, blogImages) && !isLoading
      ensures selectedCategory == old(selectedCategory) && showFilters == old(showFilters)
    {
      isLoading := true;
      posts := WithImages(blogPosts, blogImages);
      isLoading := false;
    }

    /** A category button. */
    method SelectCategory(category: string)
      requires category in Categories
      modifies this
      ensures selectedCategory == category
      ensures posts == old(posts) && isLoading == old(isLoading) && showFilters == old(showFilters)
    {
      selectedCategory := category;
    }

    /** The "Filter" button folds or unfolds the category row. */
    method ToggleFilters()
      modifies this
      ensures showFilters == !old(showFilters)
      ensures selectedCategory == old(selectedCategory) && posts == old(posts) && isLoading == old(isLoading)
    {
      showFilters := !showFilters;
    }

    /** A spinner while loading, else the filtered posts. */
    function View(): (v: GridView)
      reads this
      ensures isLoading <==> v == Spinner
      ensures v.Cards? ==> v.posts == FilteredPosts(selectedCategory, posts)
    {
      if isLoading then Spinner else Cards(FilteredPosts(selectedCategory, posts))
    }
  }
}

/** The shared client form schemas: the post text and the username of the setup form. */
module Validation {
  import opened Wrappers
  import opened Text
  import opened Schema
  import HashtagRouter
  import UserRouter

  /** `tweetSchema`: 1 to 256 UTF-16 code units. */
  predicate TweetAccepts(content: string) {
    1 <= Utf16Length(content) <= 256
  }

  /** `setupSchema`: at least 3 UTF-16 code units. */
  predicate SetupAccepts(username: string) {
    Utf16Length(username) >= 3
  }

  /**
   * Text the post form accepts is stored by `create`. The form counts UTF-16 code units and the
   * column counts characters, so the two limits agree exactly on text without astral characters.
   */
  lemma TweetFitsColumn(t: Tables, caller: UserId, content: string, now: int)
    ensures TweetAccepts(content) ==> HashtagRouter.CreateSpec(t, caller, content, None, now).Ok?
    ensures (forall i :: 0 <= i < |content| ==> !IsAstral(content[i])) ==>
              (TweetAccepts(content) <==> HashtagRouter.CreateSpec(t, caller, content, None, now).Ok?)
  {
    HashtagRouter.CreateWithoutTags(t, caller, content, None, now);
  }

  /** 129 emoji fit the 256-character column but are 258 code units, so the post form refuses them. */
  lemma AstralTweetRefused(t: Tables, caller: UserId, now: int)
    ensures var content := seq(129, _ => '\U{1F600}');
            !TweetAccepts(content) && HashtagRouter.CreateSpec(t, caller, content, None, now).Ok?
  {
    var content := seq(129, _ => '\U{1F600}');
    assert forall i :: 0 <= i < |content| ==> IsAstral(content[i]);
    HashtagRouter.CreateWithoutTags(t, caller, content, None, now);
  }

  /**
   * The setup form is looser than the server: every name the server accepts passes the form, but the
   * form lets through names the server refuses, such as `a b` and a 31-character name.
   */
  lemma SetupFormLooser(username: string)
    ensures UserRouter.ValidUsername(username) ==> SetupAccepts(username)
    ensures SetupAccepts("a b") && !UserRouter.ValidUsername("a b")
    ensures |username| == 31 ==> SetupAccepts(username) && !UserRouter.ValidUsername(username)
  {
    var spaced: string := "a b";
    assert !IsWordChar(spaced[1]);
    assert forall i :: 0 <= i < |spaced| ==> !IsAstral(spaced[i]);
  }
}
